/** Runs from a fresh TLS loop to its failures: a null buffer used, a descriptor closed twice, a
    connection ended by its predecessor's operation, one kept after the end of its stream, two
    operations on one buffer. */
module TlsFailures {
  import opened LoopModel
  import opened TlsEpochs
  import opened TlsKtls
  import opened TlsModel
  import opened TlsRuns
  import opened TlsSafety

  // A transfer that met nothing, one that has to wait for the socket, and one that failed.
  const NOTHING := Transfer(false, false, false, false, Idle, false)
  const WAIT := Transfer(false, false, true, false, Idle, true)
  const FAILURE := Transfer(false, true, false, false, Idle, false)

  /** on_connect asks to read; without KTLS there is nothing to read yet. */
  function ReadFirst<B>(block: B, ktls: bool): Welcome<B> {
    Welcome(ktls, block, Reading, true, if ktls then NOTHING else WAIT)
  }

  /** on_connect leaves bytes in the buffer and asks to read, and on_read asks to read as well. */
  function FoundFirst<B>(block: B): Welcome<B> {
    Welcome(true, block, Reading, true, Transfer(true, false, false, false, Reading, true))
  }

  /** accept gave `fd`, and its handshake was done at once. */
  function Arrives<B>(fd: nat, ssl: nat, w: Welcome<B>): Event<B> { Event.Accept(fd, ssl, Done(w), true) }

  /** accept gave `fd`, and its handshake waits. */
  function Knocks<B>(fd: nat, ssl: nat): Event<B> { Event.Accept(fd, ssl, WantRead, true) }

  /** The oldest poll of `fd` reports POLLIN, and what is then tried meets `t`: a read, or a handshake
      that fails. */
  function Ready<B>(fd: nat, t: Transfer): Event<B> { Event.Complete(fd, 0, 1, false, Failed, t) }

  /** The oldest receive of `fd` reports the end of the stream. */
  function Eof<B>(fd: nat): Event<B> { Event.Complete(fd, 0, 0, false, Failed, NOTHING) }

  function Poll<B>(epoch: nat): Flight<B> { Flight(PollInDone, epoch, None) }

  function Recv<B>(epoch: nat, b: B): Flight<B> { Flight(RecvDone, epoch, Some(b)) }

  // ---- What the runs pass through ----

  /** `fd` has a record that says `reading`, for what it waits, and what the kernel holds for it. */
  ghost predicate At<B>(s: Tls<B>, fd: nat, op: TlsOp, epoch: nat, flights: seq<Flight<B>>) {
    && Parallel(s) && !s.crashed && fd < |s.conns| && s.epochs[fd] == epoch
    && s.conns[fd].op == op && s.conns[fd].state == Reading && s.flights[fd] == flights
  }

  ghost predicate Reads<B>(s: Tls<B>, fd: nat, ktls: bool, flights: seq<Flight<B>>) {
    && At(s, fd, if ktls then RecvKtls else PollIn, 1, flights) && Live(s, fd) && s.conns[fd].ktls == ktls
    && fd in s.open && fd !in s.pending
  }

  /** Without KTLS two polls are outstanding at once: one for on_connect's answer, one for the first
      read. */
  lemma AcceptReads<B>(s: Tls<B>, fd: nat, ssl: nat, block: B, ktls: bool)
    requires Init(s) && (s.pool == [] ==> block !in s.buffers)
    ensures WellFormed(s) && Enabled(s, Arrives(fd, ssl, ReadFirst(block, ktls)))
    ensures var s' := Next(s, Arrives(fd, ssl, ReadFirst(block, ktls)));
            && fd < |s'.conns| && Live(s', fd)
            && Reads(s', fd, ktls, if ktls then [Recv(1, s'.conns[fd].buffer.value)] else [Poll(1), Poll(1)])
            && s'.handles == {ssl} && s'.stray == 0
  {
    InitInv(s);
    InvWellFormed(s);
  }

  /** A KTLS connection that starts with two receives. */
  lemma AcceptTwice<B>(s: Tls<B>, fd: nat, ssl: nat, block: B)
    requires Init(s) && (s.pool == [] ==> block !in s.buffers)
    ensures WellFormed(s) && Enabled(s, Arrives(fd, ssl, FoundFirst(block)))
    ensures var s' := Next(s, Arrives(fd, ssl, FoundFirst(block)));
            && fd < |s'.conns| && Live(s', fd) && s'.handles == {ssl} && s'.stray == 0
            && Reads(s', fd, true, [Recv(1, s'.conns[fd].buffer.value), Recv(1, s'.conns[fd].buffer.value)])
  {
    InitInv(s);
    InvWellFormed(s);
  }

  /** A failed operation closes the descriptor, whoever has it by then. */
  lemma FailureCloses<B>(s: Tls<B>, fd: nat, op: TlsOp, epoch: nat, flights: seq<Flight<B>>)
    requires Inv(s) && At(s, fd, op, epoch, flights) && flights != []
    ensures var e := Reset(fd);
            && WellFormed(s) && Enabled(s, e)
            && At(Next(s, e), fd, NoTlsOp, epoch, flights[1..]) && fd !in Next(s, e).open
            && Next(s, e).handles == s.handles && Next(s, e).stray == s.stray + if fd in s.open then 0 else 1
  {
    InvWellFormed(s);
  }

  /** A poll is followed by a read that fails. */
  lemma ReadFails<B>(s: Tls<B>, fd: nat, flights: seq<Flight<B>>)
    requires Inv(s) && Reads(s, fd, false, flights) && flights != [] && flights[0] == Poll(1)
    ensures var e := Ready(fd, FAILURE);
            && WellFormed(s) && Enabled(s, e)
            && At(Next(s, e), fd, NoTlsOp, 1, flights[1..]) && fd !in Next(s, e).open && Next(s, e).handles == s.handles
  {
    InvWellFormed(s);
  }

  /** A closed descriptor is accepted again and its handshake waits for a poll. */
  lemma AcceptWaits<B>(s: Tls<B>, fd: nat, ssl: nat, flights: seq<Flight<B>>)
    requires Inv(s) && At(s, fd, NoTlsOp, 1, flights) && fd !in s.open && ssl !in s.handles
    ensures var e := Knocks(fd, ssl);
            && WellFormed(s) && Enabled(s, e)
            && At(Next(s, e), fd, PollIn, 2, flights + [Poll(2)]) && fd in Next(s, e).pending
  {
    InvWellFormed(s);
  }

  /** The handshake fails: the descriptor is closed and its record still waits for the poll. */
  lemma HandshakeFails<B>(s: Tls<B>, fd: nat, flights: seq<Flight<B>>)
    requires Inv(s) && At(s, fd, PollIn, 2, flights) && fd in s.pending && flights != []
    ensures var e := Ready(fd, NOTHING);
            && WellFormed(s) && Enabled(s, e)
            && At(Next(s, e), fd, PollIn, 2, flights[1..]) && fd !in Next(s, e).open
  {
    InvWellFormed(s);
  }

  /** The end of the stream: a receive of 0 bytes, or a poll after which SSL_read reports it. */
  function PeerCloses<B>(fd: nat, ktls: bool): Event<B> { if ktls then Eof(fd) else Ready(fd, NOTHING) }

  lemma EndIgnored<B>(s: Tls<B>, fd: nat, ktls: bool, flights: seq<Flight<B>>)
    requires Inv(s) && Reads(s, fd, ktls, flights)
    requires flights != [] && flights[0].kind == if ktls then RecvDone else PollInDone
    ensures var e := PeerCloses(fd, ktls);
            && WellFormed(s) && Enabled(s, e) && EndsQuietly(s, e, fd)
            && Reads(Next(s, e), fd, ktls, flights[1..])
  {
    InvWellFormed(s);
    QuietEndIs(s, PeerCloses(fd, ktls), fd);
  }

  // ---- Runs ----

  /** One more step of a run. */
  lemma More<B>(trace: seq<Tls<B>>, events: seq<Event<B>>, e: Event<B>)
    returns (trace': seq<Tls<B>>, events': seq<Event<B>>)
    requires IsRun(trace, events) && WellFormed(trace[|events|]) && Enabled(trace[|events|], e)
    ensures IsRun(trace', events') && events' == events + [e]
    ensures trace'[..|trace|] == trace && trace'[|trace|] == Next(trace[|events|], e)
  {
    trace', events' := trace + [Next(trace[|events|], e)], events + [e];
    forall i | 0 <= i < |events'|
      ensures Steps(trace'[i], events'[i], trace'[i + 1])
    {
      if i < |events| {
        assert Steps(trace[i], events[i], trace[i + 1]);
      }
    }
  }

  /** Accepted and reading. */
  lemma Established<B>(s: Tls<B>, fd: nat, ssl: nat, block: B, ktls: bool)
    returns (trace: seq<Tls<B>>, events: seq<Event<B>>)
    requires Init(s) && (s.pool == [] ==> block !in s.buffers)
    ensures IsRun(trace, events) && trace[0] == s && events == [Arrives(fd, ssl, ReadFirst(block, ktls))]
    ensures Reads(trace[1], fd, ktls, FlightsOf(trace[1], fd)) && trace[1].handles == {ssl}
    ensures if ktls then |trace[1].flights[fd]| == 1 && trace[1].flights[fd][0].kind == RecvDone
            else trace[1].flights[fd] == [Poll(1), Poll(1)]
  {
    AcceptReads(s, fd, ssl, block, ktls);
    trace, events := More([s], [], Arrives(fd, ssl, ReadFirst(block, ktls)));
  }

  /** Failed in a read while another poll is outstanding. */
  lemma ReadFailed<B>(s: Tls<B>, fd: nat, ssl: nat, block: B)
    returns (trace: seq<Tls<B>>, events: seq<Event<B>>)
    requires Init(s) && (s.pool == [] ==> block !in s.buffers)
    ensures IsRun(trace, events) && trace[0] == s
    ensures events == [Arrives(fd, ssl, ReadFirst(block, false))] + [Ready(fd, FAILURE)]
    ensures At(trace[2], fd, NoTlsOp, 1, [Poll(1)]) && fd !in trace[2].open && trace[2].handles == {ssl}
  {
    trace, events := Established(s, fd, ssl, block, false);
    Lifecycle(trace, events, 1);
    ReadFails(trace[1], fd, [Poll(1), Poll(1)]);
    trace, events := More(trace, events, Ready(fd, FAILURE));
  }

  /** And accepted again. */
  lemma AcceptedAgain<B>(s: Tls<B>, fd: nat, ssl: nat, ssl': nat, block: B)
    returns (trace: seq<Tls<B>>, events: seq<Event<B>>)
    requires Init(s) && ssl != ssl' && (s.pool == [] ==> block !in s.buffers)
    ensures IsRun(trace, events) && trace[0] == s
    ensures events == [Arrives(fd, ssl, ReadFirst(block, false))] + [Ready(fd, FAILURE)] + [Knocks(fd, ssl')]
    ensures At(trace[3], fd, PollIn, 2, [Poll(1), Poll(2)]) && fd in trace[3].pending
  {
    trace, events := ReadFailed(s, fd, ssl, block);
    Lifecycle(trace, events, 2);
    AcceptWaits(trace[2], fd, ssl', [Poll(1)]);
    trace, events := More(trace, events, Knocks(fd, ssl'));
  }

  /** From every fresh loop, on every descriptor: accepted and reading, failed in a read, accepted
      again, failed in its handshake; then a poll completes and the loop uses a null buffer. */
  lemma FaultIsReachable<B>(s: Tls<B>, fd: nat, ssl: nat, ssl': nat, block: B)
    returns (trace: seq<Tls<B>>, events: seq<Event<B>>)
    requires Init(s) && ssl != ssl' && (s.pool == [] ==> block !in s.buffers)
    ensures IsRun(trace, events) && trace[0] == s
    ensures events == [Arrives(fd, ssl, ReadFirst(block, false))] + [Ready(fd, FAILURE)] + [Knocks(fd, ssl')]
                    + [Ready(fd, NOTHING)] + [Ready(fd, NOTHING)]
    ensures trace[5].crashed
  {
    trace, events := AcceptedAgain(s, fd, ssl, ssl', block);
    Lifecycle(trace, events, 3);
    HandshakeFails(trace[3], fd, [Poll(1), Poll(2)]);
    trace, events := More(trace, events, Ready(fd, NOTHING));
    PollFaults(trace, events, 4, fd);
    trace, events := More(trace, events, Ready(fd, NOTHING));
  }

  lemma PollFaults<B>(trace: seq<Tls<B>>, events: seq<Event<B>>, n: nat, fd: nat)
    requires IsRun(trace, events) && n < |trace|
    requires At(trace[n], fd, PollIn, 2, [Poll(2)]) && fd !in trace[n].open
    ensures WellFormed(trace[n]) && Enabled(trace[n], Ready(fd, NOTHING))
    ensures Next(trace[n], Ready(fd, NOTHING)).crashed
  {
    Lifecycle(trace, events, n);
    StepInv(trace[n], Ready(fd, NOTHING));
  }

  /** A KTLS connection with two receives. */
  lemma EstablishedTwice<B>(s: Tls<B>, fd: nat, ssl: nat, block: B)
    returns (trace: seq<Tls<B>>, events: seq<Event<B>>, b: B)
    requires Init(s) && (s.pool == [] ==> block !in s.buffers)
    ensures IsRun(trace, events) && trace[0] == s && events == [Arrives(fd, ssl, FoundFirst(block))]
    ensures Reads(trace[1], fd, true, [Recv(1, b), Recv(1, b)])
    ensures trace[1].handles == {ssl} && trace[1].stray == 0
  {
    AcceptTwice(s, fd, ssl, block);
    trace, events := More([s], [], Arrives(fd, ssl, FoundFirst(block)));
    b := trace[1].conns[fd].buffer.value;
  }

  /** Of which one failed. */
  lemma HalfClosed<B>(s: Tls<B>, fd: nat, ssl: nat, block: B)
    returns (trace: seq<Tls<B>>, events: seq<Event<B>>, b: B)
    requires Init(s) && (s.pool == [] ==> block !in s.buffers)
    ensures IsRun(trace, events) && trace[0] == s && events == [Arrives(fd, ssl, FoundFirst(block))] + [Reset(fd)]
    ensures At(trace[2], fd, NoTlsOp, 1, [Recv(1, b)]) && fd !in trace[2].open
    ensures trace[2].handles == {ssl} && trace[2].stray == 0
  {
    trace, events, b := EstablishedTwice(s, fd, ssl, block);
    Lifecycle(trace, events, 1);
    FailureCloses(trace[1], fd, RecvKtls, 1, [Recv(1, b), Recv(1, b)]);
    trace, events := More(trace, events, Reset(fd));
  }

  /** From every fresh loop, on every descriptor: both receives of one connection fail, and the
      second closes a descriptor that is closed. */
  lemma StrayIsReachable<B>(s: Tls<B>, fd: nat, ssl: nat, block: B)
    returns (trace: seq<Tls<B>>, events: seq<Event<B>>)
    requires Init(s) && (s.pool == [] ==> block !in s.buffers)
    ensures IsRun(trace, events) && trace[0] == s
    ensures events == [Arrives(fd, ssl, FoundFirst(block))] + [Reset(fd)] + [Reset(fd)]
    ensures trace[3].stray == 1
  {
    var b;
    trace, events, b := HalfClosed(s, fd, ssl, block);
    Lifecycle(trace, events, 2);
    FailureCloses(trace[2], fd, NoTlsOp, 1, [Recv(1, b)]);
    trace, events := More(trace, events, Reset(fd));
  }

  /** One receive failed, the other outstanding, the descriptor accepted again. */
  lemma Succeeded<B>(s: Tls<B>, fd: nat, ssl: nat, ssl': nat, block: B)
    returns (trace: seq<Tls<B>>, events: seq<Event<B>>, b: B)
    requires Init(s) && ssl != ssl' && (s.pool == [] ==> block !in s.buffers)
    ensures IsRun(trace, events) && trace[0] == s
    ensures events == [Arrives(fd, ssl, FoundFirst(block))] + [Reset(fd)] + [Knocks(fd, ssl')]
    ensures At(trace[3], fd, PollIn, 2, [Recv(1, b), Poll(2)]) && fd in trace[3].pending
  {
    trace, events, b := HalfClosed(s, fd, ssl, block);
    Lifecycle(trace, events, 2);
    AcceptWaits(trace[2], fd, ssl', [Recv(1, b)]);
    trace, events := More(trace, events, Knocks(fd, ssl'));
  }

  /** From every fresh loop, on every descriptor: the second receive of one connection fails and ends
      the next connection, whose own poll is still outstanding. */
  lemma SuccessorIsClosed<B>(s: Tls<B>, fd: nat, ssl: nat, ssl': nat, block: B)
    returns (trace: seq<Tls<B>>, events: seq<Event<B>>)
    requires Init(s) && ssl != ssl' && (s.pool == [] ==> block !in s.buffers)
    ensures IsRun(trace, events) && trace[0] == s
    ensures events == [Arrives(fd, ssl, FoundFirst(block))] + [Reset(fd)] + [Knocks(fd, ssl')] + [Reset(fd)]
    ensures fd in trace[3].pending && OfEarlier(trace[3], events[3])
    ensures fd !in trace[4].open && FlightsOf(trace[4], fd) == [Poll(EpochOf(trace[4], fd))]
  {
    var b;
    trace, events, b := Succeeded(s, fd, ssl, ssl', block);
    Lifecycle(trace, events, 3);
    FailureCloses(trace[3], fd, PollIn, 2, [Recv(1, b), Poll(2)]);
    trace, events := More(trace, events, Reset(fd));
  }

  /** Accepted and reading, and one operation ended with the end of the stream. */
  lemma EndsOnce<B>(s: Tls<B>, fd: nat, ssl: nat, block: B, ktls: bool)
    returns (trace: seq<Tls<B>>, events: seq<Event<B>>)
    requires Init(s) && (s.pool == [] ==> block !in s.buffers)
    ensures IsRun(trace, events) && trace[0] == s
    ensures events == [Arrives(fd, ssl, ReadFirst(block, ktls))] + [PeerCloses(fd, ktls)]
    ensures EndsQuietly(trace[1], events[1], fd) && Reads(trace[2], fd, ktls, if ktls then [] else [Poll(1)])
  {
    trace, events := Established(s, fd, ssl, block, ktls);
    Lifecycle(trace, events, 1);
    EndIgnored(trace[1], fd, ktls, trace[1].flights[fd]);
    trace, events := More(trace, events, PeerCloses(fd, ktls));
  }

  /** From every fresh loop, on every descriptor: a connection reads and its peer closes. Its one
      operation under KTLS, or both its polls otherwise, end with the end of the stream; it is
      still open with nothing outstanding, and so, by NeverEnds, it stays. */
  lemma LeakIsReachable<B>(s: Tls<B>, fd: nat, ssl: nat, block: B, ktls: bool)
    returns (trace: seq<Tls<B>>, events: seq<Event<B>>)
    requires Init(s) && (s.pool == [] ==> block !in s.buffers)
    ensures IsRun(trace, events) && trace[0] == s
    ensures events == [Arrives(fd, ssl, ReadFirst(block, ktls))] + [PeerCloses(fd, ktls)]
                    + if ktls then [] else [PeerCloses(fd, ktls)]
    ensures forall k :: 1 <= k < |events| ==> EndsQuietly(trace[k], events[k], fd)
    ensures Reads(trace[|events|], fd, ktls, [])
  {
    trace, events := EndsOnce(s, fd, ssl, block, ktls);
    if !ktls {
      Lifecycle(trace, events, 2);
      EndIgnored(trace[2], fd, ktls, [Poll(1)]);
      trace, events := More(trace, events, PeerCloses(fd, ktls));
    }
  }

  /** From every fresh loop, on every descriptor, a KTLS connection may start with every welcome; in
      particular one whose on_connect leaves bytes in the buffer, with two receives on it. */
  lemma KtlsCanStart<B>(s: Tls<B>, fd: nat, ssl: nat, w: Welcome<B>)
    returns (trace: seq<Tls<B>>, events: seq<Event<B>>)
    requires Init(s) && w.ktls && (s.pool == [] ==> w.block !in s.buffers)
    ensures trace != [] && trace[0] == s && events == [Arrives(fd, ssl, w)] && KtlsStarts(trace, events, 0, fd)
  {
    InitInv(s);
    InvWellFormed(s);
    trace, events := More([s], [], Arrives(fd, ssl, w));
  }

  lemma TwoReceives<B>(s: Tls<B>, fd: nat, ssl: nat, block: B)
    returns (trace: seq<Tls<B>>, events: seq<Event<B>>)
    requires Init(s) && (s.pool == [] ==> block !in s.buffers)
    ensures IsRun(trace, events) && trace[0] == s && events == [Arrives(fd, ssl, FoundFirst(block))]
    ensures TwoOps(trace[1], fd) && trace[1].conns[fd].op == RecvKtls
  {
    trace, events := KtlsCanStart(s, fd, ssl, FoundFirst(block));
    Started(trace, events, 0, fd);
  }
}
