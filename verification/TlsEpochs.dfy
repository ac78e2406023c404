/** Whose operations are outstanding: those of the connection that has a descriptor now, or those of
    an earlier one. What holds if accept only returns descriptors with nothing outstanding. */
module TlsEpochs {
  import opened LoopModel
  import opened TlsModel
  import opened TlsRuns
  import opened TlsSafety

  // ---- Counting ----

  /** How many of the operations were submitted for another connection than the epoch's. */
  ghost function Foreign<B>(flights: seq<Flight<B>>, epoch: nat): (n: nat)
    ensures n <= |flights|
    ensures n == 0 <==> forall j :: 0 <= j < |flights| ==> flights[j].epoch == epoch
  {
    if flights == [] then 0
    else
      var last := |flights| - 1;
      assert flights == flights[..last] + [flights[last]];
      Foreign(flights[..last], epoch) + if flights[last].epoch == epoch then 0 else 1
  }

  lemma {:induction false} ForeignTwo<B>(a: seq<Flight<B>>, b: seq<Flight<B>>, epoch: nat)
    ensures Foreign(a + b, epoch) == Foreign(a, epoch) + Foreign(b, epoch)
    decreases |b|
  {
    if b == [] {
      assert a + b == a;
    } else {
      var last := |b| - 1;
      ForeignTwo(a, b[..last], epoch);
      assert (a + b)[..|a + b| - 1] == a + b[..last];
    }
  }

  lemma ForeignWithout<B>(flights: seq<Flight<B>>, i: nat, epoch: nat)
    requires i < |flights|
    ensures Foreign(Without(flights, i), epoch) ==
            Foreign(flights, epoch) - if flights[i].epoch == epoch then 0 else 1
  {
    assert flights == flights[..i] + [flights[i]] + flights[i + 1..];
    ForeignTwo(flights[..i], [flights[i]], epoch);
    ForeignTwo(flights[..i] + [flights[i]], flights[i + 1..], epoch);
    ForeignTwo(flights[..i], flights[i + 1..], epoch);
    assert Foreign([flights[i]], epoch) == if flights[i].epoch == epoch then 0 else 1 by {
      assert [flights[i]][..0] == [];
    }
  }

  lemma {:induction false} AllForeign<B>(flights: seq<Flight<B>>, epoch: nat)
    requires forall j :: 0 <= j < |flights| ==> flights[j].epoch != epoch
    ensures Foreign(flights, epoch) == |flights|
    decreases |flights|
  {
    if flights != [] {
      AllForeign(flights[..|flights| - 1], epoch);
    }
  }

  // ---- What a handler submits ----

  /** Up to `n` operations were submitted for `fd`, by the connection that has it; and that one is
      still open or waits for nothing. */
  ghost predicate Grew<B>(s: Tls<B>, s': Tls<B>, fd: nat, n: nat) {
    && Parallel(s) && Parallel(s') && fd < |s.conns| && fd < |s'.conns| && s'.epochs[fd] == s.epochs[fd]
    && s.flights[fd] <= s'.flights[fd] && |s'.flights[fd]| <= |s.flights[fd]| + n
    && (forall j :: |s.flights[fd]| <= j < |s'.flights[fd]| ==> s'.flights[fd][j].epoch == s.epochs[fd])
    && (fd in s'.pending ==> fd in s.pending)
    && (fd in s.open ==> fd in s'.open || s'.conns[fd].op == NoTlsOp) && s'.open <= s.open
  }

  lemma GrewThen<B>(s: Tls<B>, s1: Tls<B>, s2: Tls<B>, fd: nat, m: nat, n: nat)
    requires Grew(s, s1, fd, m) && Grew(s1, s2, fd, n) && fd in s1.open
    ensures Grew(s, s2, fd, m + n)
  {
  }

  lemma ApplyStateGrew<B>(s: Tls<B>, fd: nat, next: ElState, armed: bool)
    requires Parallel(s) && fd < |s.conns|
    ensures Grew(s, ApplyState(s, fd, next, armed), fd, 1)
  {
  }

  lemma AnsweredGrew<B>(s: Tls<B>, fd: nat, c: Call, next: ElState, armed: bool)
    requires Parallel(s) && fd < |s.conns|
    ensures Grew(s, ApplyState(Called(s, fd, c), fd, next, armed), fd, 1)
  {
    ApplyStateGrew(Called(s, fd, c), fd, next, armed);
  }

  lemma HandleReadGrew<B>(s: Tls<B>, fd: nat, t: Transfer)
    requires Parallel(s) && fd < |s.conns|
    ensures Grew(s, HandleRead(s, fd, t), fd, 1)
  {
    AnsweredGrew(s, fd, OnRead, t.next, t.armed);
  }

  lemma HandleWriteGrew<B>(s: Tls<B>, fd: nat, t: Transfer)
    requires Parallel(s) && fd < |s.conns|
    ensures Grew(s, HandleWrite(s, fd, t), fd, 1)
  {
    if t.error {
      AnsweredGrew(s, fd, OnError, if s.conns[fd].ktls then Die else t.next, t.armed);
    } else {
      AnsweredGrew(s, fd, OnWrite, t.next, t.armed);
    }
  }

  lemma KtlsReceivedGrew<B>(s: Tls<B>, fd: nat, t: Transfer)
    requires Parallel(s) && fd < |s.conns|
    ensures Grew(s, KtlsReceived(s, fd, t), fd, 1)
  {
    AnsweredGrew(SetOp(s, fd, NoTlsOp), fd, OnRead, t.next, t.armed);
  }

  lemma KtlsSentGrew<B>(s: Tls<B>, fd: nat, t: Transfer)
    requires Parallel(s) && fd < |s.conns|
    ensures Grew(s, KtlsSent(s, fd, t), fd, 1)
  {
    AnsweredGrew(SetOp(s, fd, NoTlsOp), fd, OnWrite, t.next, t.armed);
  }

  lemma AfterConnectGrew<B>(s: Tls<B>, fd: nat, w: Welcome<B>)
    requires Parallel(s) && fd < |s.conns| && fd in s.open
    ensures Grew(s, AfterConnect(s, fd, w), fd, 2)
  {
    if w.next != Die {
      var s1 := ApplyState(s, fd, w.next, w.armed);
      ApplyStateGrew(s, fd, w.next, w.armed);
      HandleReadGrew(s1, fd, w.first);
      assert fd in s1.open;
      GrewThen(s, s1, HandleRead(s1, fd, w.first), fd, 1, 1);
    }
  }

  lemma CompleteGrew<B>(s: Tls<B>, fd: nat, ssl: nat, w: Welcome<B>)
    requires Parallel(s) && fd < |s.conns| && fd in s.open
    ensures Grew(s, TlsModel.Complete(s, fd, ssl, w), fd, 2)
  {
    var s1 := Greeted(RegisterConnection(s, fd, ssl, w.block), fd, w.ktls);
    AfterConnectGrew(s1, fd, w);
    GrewThen(s, s1, AfterConnect(s1, fd, w), fd, 0, 2);
  }

  // ---- Steps ----

  /** What a completion leads to, the completed operation being gone already: up to two submissions
      if it completes a handshake, else up to one; and a handshake that is over is not pending. */
  lemma CompletionGrew<B>(s: Tls<B>, fd: nat, kind: Kind, res: int, again: bool, h: Handshake<B>, t: Transfer)
    requires Inv(s) && WellFormed(s) && fd < |s.conns|
    ensures var s' := Completion(s, fd, kind, res, again, h, t);
            if fd in s.pending && h == Failed && (res >= 0 || again) then
              s'.flights == s.flights && s'.epochs == s.epochs && s'.open == s.open - {fd} && fd !in s'.pending
            else Grew(s, s', fd, if fd in s.pending && h.Done? then 2 else 1)
                 && (fd in s'.pending ==> h == WantRead)
                 && (fd !in s'.open ==> fd in s.open ==> s'.conns[fd].op == NoTlsOp)
  {
    if res < 0 && !again {
    } else if fd in s.pending {
      if h.Done? {
        CompleteGrew(Shaken(s.(pending := s.pending - {fd})), fd, s.conns[fd].ssl.value, h.welcome);
      }
    } else {
      match kind
      case RecvDone => KtlsReceivedGrew(s, fd, t);
      case SendDone => KtlsSentGrew(s, fd, t);
      case PollInDone => HandleReadGrew(s, fd, t);
      case PollOutDone => HandleWriteGrew(s, fd, t);
    }
  }

  /** The operations outstanding for a descriptor; none beyond the table. */
  ghost function FlightsOf<B>(s: Tls<B>, fd: nat): seq<Flight<B>> {
    if fd < |s.flights| then s.flights[fd] else []
  }

  /** Operations are submitted after some accept there has been. */
  ghost predicate EpochsOk<B>(s: Tls<B>) {
    Parallel(s) && forall fd :: 0 <= fd < |s.flights| ==> NoLater(s.flights[fd], s.epochs[fd])
  }

  ghost predicate NoLater<B>(flights: seq<Flight<B>>, epoch: nat) {
    forall j :: 0 <= j < |flights| ==> flights[j].epoch <= epoch
  }

  /** `earlier` is followed by up to `n` operations of the epoch. */
  ghost predicate Extends<B>(earlier: seq<Flight<B>>, flights: seq<Flight<B>>, epoch: nat, n: nat) {
    && earlier <= flights && |flights| <= |earlier| + n
    && forall j :: |earlier| <= j < |flights| ==> flights[j].epoch == epoch
  }

  /** An accept begins an epoch, and only its connection submits. */
  lemma AcceptExtends<B>(s: Tls<B>, fd: nat, ssl: nat, h: Handshake<B>, armed: bool)
    requires Inv(s) && Enabled(s, Event.Accept(fd, ssl, h, armed))
    ensures var s' := HandleAccept(s, fd, ssl, h, armed);
            && Parallel(s') && fd < |s'.conns|
            && s'.epochs[fd] == (if fd < |s.epochs| then s.epochs[fd] else 0) + 1
            && Extends(FlightsOf(s, fd), s'.flights[fd], s'.epochs[fd], if h.Done? then 2 else 1)
            && (fd in s'.pending ==> h == WantRead)
            && (fd in s'.open || s'.conns[fd].op == NoTlsOp || s'.flights[fd] == FlightsOf(s, fd))
  {
    var s1 := Accepted(Grow(s, fd), fd, ssl);
    if h.Done? {
      CompleteGrew(Shaken(s1), fd, ssl, h.welcome);
    }
  }

  ghost predicate AllOwn<B>(flights: seq<Flight<B>>, epoch: nat) {
    forall j :: 0 <= j < |flights| ==> flights[j].epoch == epoch
  }

  lemma ExtendsForeign<B>(earlier: seq<Flight<B>>, flights: seq<Flight<B>>, epoch: nat, n: nat)
    requires Extends(earlier, flights, epoch, n)
    ensures Foreign(flights, epoch) == Foreign(earlier, epoch)
  {
    assert flights == earlier + flights[|earlier|..];
    ForeignTwo(earlier, flights[|earlier|..], epoch);
  }

  /** A completion takes one operation away and only the descriptor's connection submits. */
  lemma CompleteExtends<B>(s: Tls<B>, e: Event<B>)
    requires Inv(s) && WellFormed(s) && Enabled(s, e) && e.Complete?
    ensures var s', fd := Next(s, e), e.fd;
            && Parallel(s') && fd < |s'.conns| && s'.epochs[fd] == s.epochs[fd] && s'.open <= s.open
            && Extends(Without(s.flights[fd], e.i), s'.flights[fd], s.epochs[fd],
                       if fd in s.pending && e.h.Done? then 2 else 1)
            && (fd in s'.pending ==> fd in s.pending && e.h == WantRead)
            && (fd in s.open && fd !in s'.open ==>
                  s'.conns[fd].op == NoTlsOp || (fd in s.pending && s'.flights[fd] == Without(s.flights[fd], e.i)))
  {
    var s1 := Landed(s, e.fd, e.i);
    LandedNear(s, e.fd, e.i);
    CompletionGrew(s1, e.fd, s.flights[e.fd][e.i].kind, e.res, e.again, e.h, e.t);
  }

  /** Other descriptors keep their operations; new records have none. */
  lemma OthersFlights<B>(s: Tls<B>, e: Event<B>, fd: nat)
    requires Inv(s) && WellFormed(s) && Enabled(s, e) && e.fd != fd
    ensures fd < |s.conns| ==> SameAt(s, Next(s, e), fd)
    ensures |s.conns| <= fd < |Next(s, e).flights| ==> Next(s, e).flights[fd] == []
  {
    match e
    case Accept(f, ssl, h, armed) =>
      AcceptNear(s, f, ssl, h, armed);
      StepNear(s, e, fd);
      if |s.conns| <= fd < |Next(s, e).flights| {
        assert SameAt(Grow(s, f), Next(s, e), fd);
      }
    case Complete(f, i, res, again, h, t) =>
      StepNear(s, e, fd);
      StepInv(s, e);
  }

  /** The descriptor of an event and the operations submitted for it so far. */
  lemma OwnEpochOk<B>(s: Tls<B>, e: Event<B>)
    requires Inv(s) && WellFormed(s) && Enabled(s, e) && EpochsOk(s)
    ensures var s' := Next(s, e);
            e.fd < |s'.flights| && e.fd < |s'.epochs| && NoLater(s'.flights[e.fd], s'.epochs[e.fd])
  {
    match e
    case Accept(fd, ssl, h, armed) =>
      AcceptExtends(s, fd, ssl, h, armed);
    case Complete(fd, i, res, again, h, t) =>
      CompleteExtends(s, e);
  }

  lemma StepEpochsOk<B>(s: Tls<B>, e: Event<B>)
    requires Inv(s) && WellFormed(s) && Enabled(s, e) && EpochsOk(s)
    ensures EpochsOk(Next(s, e))
  {
    var s' := Next(s, e);
    OwnEpochOk(s, e);
    StepInv(s, e);
    forall fd | 0 <= fd < |s'.flights|
      ensures NoLater(s'.flights[fd], s'.epochs[fd])
    {
      if fd != e.fd {
        OthersFlights(s, e, fd);
      }
    }
  }

  // ---- Operations of earlier connections ----

  ghost function EpochOf<B>(s: Tls<B>, fd: nat): nat { if fd < |s.epochs| then s.epochs[fd] else 0 }

  /** How many operations are outstanding for `fd` that were submitted before its last accept. */
  ghost function ForeignLeft<B>(s: Tls<B>, fd: nat): nat { Foreign(FlightsOf(s, fd), EpochOf(s, fd)) }

  ghost predicate Accepts<B>(e: Event<B>, fd: nat) { e.Accept? && e.fd == fd }

  /** The operation that completes was submitted before the last accept of its descriptor. */
  ghost predicate OfEarlier<B>(s: Tls<B>, e: Event<B>) {
    e.Complete? && e.i < |FlightsOf(s, e.fd)| && FlightsOf(s, e.fd)[e.i].epoch != EpochOf(s, e.fd)
  }

  lemma ForeignOwnStep<B>(s: Tls<B>, e: Event<B>)
    requires Inv(s) && WellFormed(s) && Enabled(s, e) && EpochsOk(s)
    ensures e.Accept? ==> ForeignLeft(Next(s, e), e.fd) == |FlightsOf(s, e.fd)|
    ensures e.Complete? ==>
              ForeignLeft(Next(s, e), e.fd) == ForeignLeft(s, e.fd) - if OfEarlier(s, e) then 1 else 0
  {
    match e
    case Accept(fd, ssl, h, armed) =>
      AcceptExtends(s, fd, ssl, h, armed);
      var s' := Next(s, e);
      ExtendsForeign(FlightsOf(s, fd), s'.flights[fd], s'.epochs[fd], if h.Done? then 2 else 1);
      AllForeign(FlightsOf(s, fd), s'.epochs[fd]);
    case Complete(fd, i, res, again, h, t) =>
      CompleteExtends(s, e);
      var s' := Next(s, e);
      ForeignWithout(s.flights[fd], i, s.epochs[fd]);
      ExtendsForeign(Without(s.flights[fd], i), s'.flights[fd], s.epochs[fd],
        if fd in s.pending && h.Done? then 2 else 1);
  }

  lemma ForeignStep<B>(s: Tls<B>, e: Event<B>, fd: nat)
    requires Inv(s) && WellFormed(s) && Enabled(s, e) && EpochsOk(s)
    ensures Accepts(e, fd) ==> ForeignLeft(Next(s, e), fd) == |FlightsOf(s, fd)|
    ensures !Accepts(e, fd) ==>
              ForeignLeft(Next(s, e), fd) == ForeignLeft(s, fd) - if e.fd == fd && OfEarlier(s, e) then 1 else 0
  {
    if e.fd == fd {
      ForeignOwnStep(s, e);
    } else {
      OthersFlights(s, e, fd);
    }
  }

  lemma {:induction false} EpochsHold<B>(trace: seq<Tls<B>>, events: seq<Event<B>>, n: nat)
    requires IsRun(trace, events) && n < |trace|
    ensures EpochsOk(trace[n])
    decreases n
  {
    if n > 0 {
      EpochsHold(trace, events, n - 1);
      StepOf(trace, events, n - 1);
      StepEpochsOk(trace[n - 1], events[n - 1]);
    }
  }

  lemma ForeignStepOf<B>(trace: seq<Tls<B>>, events: seq<Event<B>>, n: nat, fd: nat)
    requires IsRun(trace, events) && n < |events|
    ensures Accepts(events[n], fd) ==> ForeignLeft(trace[n + 1], fd) == |FlightsOf(trace[n], fd)|
    ensures !Accepts(events[n], fd) ==>
              ForeignLeft(trace[n + 1], fd) == ForeignLeft(trace[n], fd) -
              if events[n].fd == fd && OfEarlier(trace[n], events[n]) then 1 else 0
  {
    EpochsHold(trace, events, n);
    StepOf(trace, events, n);
    ForeignStep(trace[n], events[n], fd);
  }

  /** Step `a` is the last accept of `fd` before `n`. */
  ghost predicate LastAccept<B>(events: seq<Event<B>>, a: nat, n: nat, fd: nat) {
    a < n <= |events| && Accepts(events[a], fd) && forall k :: a < k < n ==> !Accepts(events[k], fd)
  }

  /** Which steps complete an operation of `fd` from before its last accept. */
  ghost function EarlierLandings<B>(trace: seq<Tls<B>>, events: seq<Event<B>>, fd: nat): seq<bool>
    requires |trace| == |events| + 1
  {
    seq(|events|, k requires 0 <= k < |events| => events[k].fd == fd && OfEarlier(trace[k], events[k]))
  }

  lemma CountOneMore(hits: seq<bool>, a: nat, n: nat)
    requires a <= n < |hits|
    ensures Count(hits[a..n + 1]) == Count(hits[a..n]) + if hits[n] then 1 else 0
  {
    assert hits[a..n + 1][..n - a] == hits[a..n];
  }

  lemma {:induction false} CountsDown(left: seq<nat>, hits: seq<bool>, a: nat, n: nat)
    requires a < n <= |hits| && |left| == |hits| + 1
    requires forall k :: a < k < n ==> left[k + 1] + (if hits[k] then 1 else 0) == left[k]
    ensures left[n] + Count(hits[a + 1..n]) == left[a + 1]
    decreases n
  {
    if n == a + 1 {
      assert hits[n..n] == [];
    } else {
      CountsDown(left, hits, a, n - 1);
      CountOneMore(hits, a + 1, n - 1);
      assert left[n - 1 + 1] == left[n];
    }
  }

  /** In every run, what was outstanding when a descriptor was last accepted has either completed
      since or is still outstanding, and that is all there is from before. */
  lemma EarlierHistory<B>(trace: seq<Tls<B>>, events: seq<Event<B>>, a: nat, n: nat, fd: nat)
    requires IsRun(trace, events) && LastAccept(events, a, n, fd)
    ensures ForeignLeft(trace[n], fd) + Count(EarlierLandings(trace, events, fd)[a + 1..n]) == |FlightsOf(trace[a], fd)|
  {
    var left := seq(|trace|, k requires 0 <= k < |trace| => ForeignLeft(trace[k], fd));
    var hits := EarlierLandings(trace, events, fd);
    forall k | a < k < n
      ensures left[k + 1] + (if hits[k] then 1 else 0) == left[k]
    {
      ForeignStepOf(trace, events, k, fd);
    }
    ForeignStepOf(trace, events, a, fd);
    CountsDown(left, hits, a, n);
  }

  /** Every outstanding operation of a descriptor is its connection's own exactly when all that
      were outstanding at its accept have completed since. */
  lemma OwnIff<B>(trace: seq<Tls<B>>, events: seq<Event<B>>, a: nat, n: nat, fd: nat)
    requires IsRun(trace, events) && LastAccept(events, a, n, fd)
    ensures AllOwn(FlightsOf(trace[n], fd), EpochOf(trace[n], fd))
      <==> Count(EarlierLandings(trace, events, fd)[a + 1..n]) == |FlightsOf(trace[a], fd)|
  {
    EarlierHistory(trace, events, a, n, fd);
  }

  /** The last of the marks before `n`. */
  lemma {:induction false} LastMark(on: seq<bool>, marks: seq<bool>, n: nat) returns (a: nat)
    requires n <= |marks| && |on| == |marks| + 1 && !on[0] && on[n]
    requires forall k :: 0 <= k < n ==> (on[k + 1] && !marks[k] ==> on[k])
    ensures a < n && marks[a] && forall k :: a < k < n ==> !marks[k]
    decreases n
  {
    assert on[n - 1 + 1] == on[n];
    if marks[n - 1] {
      a := n - 1;
    } else {
      a := LastMark(on, marks, n - 1);
    }
  }

  lemma OnlyAcceptOpens<B>(s: Tls<B>, e: Event<B>, fd: nat)
    requires Inv(s) && WellFormed(s) && Enabled(s, e) && !Accepts(e, fd) && fd in Next(s, e).open
    ensures fd in s.open
  {
    if e.Complete? {
      CompleteExtends(s, e);
    } else {
      AcceptNear(s, e.fd, e.ssl, e.h, e.armed);
      StepInv(s, e);
      assert SameAt(Grow(s, e.fd), Next(s, e), fd);
    }
  }

  lemma OpenStepOf<B>(trace: seq<Tls<B>>, events: seq<Event<B>>, n: nat, fd: nat)
    requires IsRun(trace, events) && n < |events| && fd in trace[n + 1].open && !Accepts(events[n], fd)
    ensures fd in trace[n].open
  {
    StepOf(trace, events, n);
    OnlyAcceptOpens(trace[n], events[n], fd);
  }

  lemma ClosedAtFirst<B>(trace: seq<Tls<B>>, events: seq<Event<B>>, fd: nat)
    requires IsRun(trace, events)
    ensures fd !in trace[0].open
  {
  }

  /** Every open connection has such an accept. */
  lemma OpenWasAccepted<B>(trace: seq<Tls<B>>, events: seq<Event<B>>, n: nat, fd: nat) returns (a: nat)
    requires IsRun(trace, events) && n <= |events| && fd in trace[n].open
    ensures LastAccept(events, a, n, fd)
  {
    var on := seq(|trace|, k requires 0 <= k < |trace| => fd in trace[k].open);
    var marks := seq(|events|, k requires 0 <= k < |events| => Accepts(events[k], fd));
    ClosedAtFirst(trace, events, fd);
    forall k | 0 <= k < n && on[k + 1] && !marks[k]
      ensures on[k]
    {
      OpenStepOf(trace, events, k, fd);
    }
    a := LastMark(on, marks, n);
    assert Accepts(events[a], fd);
    forall k | a < k < n
      ensures !Accepts(events[k], fd)
    {
      assert !marks[k];
    }
  }

  /** The i-th operation of `fd` fails with ECONNRESET. */
  function ResetOf<B>(fd: nat, i: nat): Event<B> {
    Event.Complete(fd, i, -104, false, Failed, Transfer(false, false, false, false, Idle, false))
  }

  /** The failure of that operation, which an earlier connection submitted, may come next and closes
      the descriptor. */
  ghost predicate EarlierEnds<B>(s: Tls<B>, fd: nat, i: nat) {
    && WellFormed(s) && Enabled(s, ResetOf(fd, i)) && OfEarlier(s, ResetOf(fd, i))
    && fd in s.open && fd !in Next(s, ResetOf(fd, i)).open
  }

  /** In every run, a failed operation of an earlier connection may end an open one exactly when not
      all that were outstanding at its accept have completed. */
  lemma EarlierEndsIff<B>(trace: seq<Tls<B>>, events: seq<Event<B>>, a: nat, n: nat, fd: nat)
    requires IsRun(trace, events) && LastAccept(events, a, n, fd) && fd in trace[n].open && !trace[n].crashed
    ensures var s := trace[n];
            (exists i: nat :: EarlierEnds(s, fd, i))
            <==> Count(EarlierLandings(trace, events, fd)[a + 1..n]) < |FlightsOf(trace[a], fd)|
  {
    EarlierHistory(trace, events, a, n, fd);
    Lifecycle(trace, events, n);
    InvWellFormed(trace[n]);
    EarlierLeft(trace[n], fd);
  }

  lemma EarlierLeft<B>(s: Tls<B>, fd: nat)
    requires Inv(s) && WellFormed(s) && !s.crashed && fd in s.open
    ensures (exists i: nat :: EarlierEnds(s, fd, i)) <==> ForeignLeft(s, fd) > 0
  {
    if ForeignLeft(s, fd) > 0 {
      var i: nat :| i < |FlightsOf(s, fd)| && FlightsOf(s, fd)[i].epoch != EpochOf(s, fd);
      assert EarlierEnds(s, fd, i);
    }
  }

  // ---- Runs whose accepts find nothing outstanding ----

  /** Accept only returned descriptors with nothing outstanding. */
  ghost predicate Clean<B>(trace: seq<Tls<B>>, events: seq<Event<B>>, n: nat) {
    n <= |events| <= |trace| && forall k :: 0 <= k < n ==> CleanStep(trace[k], events[k])
  }

  ghost predicate CleanStep<B>(s: Tls<B>, e: Event<B>) { e.Accept? ==> FlightsOf(s, e.fd) == [] }

  /** Only own operations; at most one while a handshake is pending; and none for a closed record
      that still waits for a poll. */
  ghost predicate TidyAt<B>(flights: seq<Flight<B>>, epoch: nat, pending: bool, open: bool, op: TlsOp) {
    && AllOwn(flights, epoch) && (pending ==> |flights| <= 1)
    && (!open && op != NoTlsOp ==> flights == [])
  }

  ghost predicate Tidy<B>(s: Tls<B>) {
    Parallel(s) && forall fd :: 0 <= fd < |s.conns| ==>
                     TidyAt(s.flights[fd], s.epochs[fd], fd in s.pending, fd in s.open, s.conns[fd].op)
  }

  /** The event's own descriptor. */
  lemma TidyOwn<B>(s: Tls<B>, e: Event<B>)
    requires Inv(s) && WellFormed(s) && Enabled(s, e) && Tidy(s) && CleanStep(s, e)
    ensures var s', fd := Next(s, e), e.fd;
            Parallel(s') && fd < |s'.conns|
            && TidyAt(s'.flights[fd], s'.epochs[fd], fd in s'.pending, fd in s'.open, s'.conns[fd].op)
  {
    match e
    case Accept(fd, ssl, h, armed) => AcceptExtends(s, fd, ssl, h, armed);
    case Complete(fd, i, res, again, h, t) =>
      CompleteExtends(s, e);
      assert AllOwn(Without(s.flights[fd], i), s.epochs[fd]);
      if fd !in s.open {
        ClosedCompletes(s, e);
      }
  }

  /** A completion for a closed descriptor leaves it closed, and submits nothing. */
  lemma ClosedCompletes<B>(s: Tls<B>, e: Event<B>)
    requires Inv(s) && WellFormed(s) && Enabled(s, e) && e.Complete? && e.fd !in s.open
    ensures var s', fd := Next(s, e), e.fd;
            fd < |s'.conns| == |s'.flights| && s'.flights[fd] == Without(s.flights[fd], e.i)
            && (s'.conns[fd].op == NoTlsOp || s'.conns[fd].op == s.conns[fd].op)
  {
    var s1 := Landed(s, e.fd, e.i);
    LandedNear(s, e.fd, e.i);
    if e.res >= 0 || e.again {
      DeadCompletionIs(s1, e.fd, s.flights[e.fd][e.i].kind, e.res, e.again, e.h, e.t);
    }
  }

  lemma StepTidy<B>(s: Tls<B>, e: Event<B>)
    requires Inv(s) && WellFormed(s) && Enabled(s, e) && Tidy(s) && CleanStep(s, e)
    ensures Tidy(Next(s, e)) && !Next(s, e).crashed && !OfEarlier(s, e)
  {
    var s' := Next(s, e);
    StepInv(s, e);
    TidyOwn(s, e);
    forall fd | 0 <= fd < |s'.conns|
      ensures TidyAt(s'.flights[fd], s'.epochs[fd], fd in s'.pending, fd in s'.open, s'.conns[fd].op)
    {
      if fd != e.fd {
        OthersFlights(s, e, fd);
      }
    }
  }

  /** On such runs no operation completes for a connection that did not submit it, so none ends its
      successor, and no null buffer is used. */
  lemma {:induction false} CleanRuns<B>(trace: seq<Tls<B>>, events: seq<Event<B>>, n: nat)
    requires IsRun(trace, events) && Clean(trace, events, n)
    ensures Tidy(trace[n]) && !trace[n].crashed
    ensures forall k :: 0 <= k < n ==> !OfEarlier(trace[k], events[k])
    decreases n
  {
    if n > 0 {
      CleanRuns(trace, events, n - 1);
      StepOf(trace, events, n - 1);
      StepTidy(trace[n - 1], events[n - 1]);
    }
  }
}
