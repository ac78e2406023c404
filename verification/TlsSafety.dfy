/** Every run of the io_uring TLS loop, with completions of outstanding operations in any order:
    who owns the SSL handles, the buffers and the descriptors, when a handle is freed, which
    callbacks a connection sees, and exactly which completions make the loop fail. */
module TlsSafety {
  import opened LoopModel
  import opened Ownership
  import opened TlsModel

  // accept returned a descriptor, or outstanding operation `i` of `fd` completed.
  datatype Event<B> =
    | Accept(fd: nat, ssl: nat, h: Handshake<B>, armed: bool)
    | Complete(fd: nat, i: nat, res: int, again: bool, h: Handshake<B>, t: Transfer)

  ghost predicate NewBlock<B>(s: Tls<B>, w: Welcome<B>) {
    s.pool == [] ==> w.block !in s.buffers
  }

  ghost predicate NewIfDone<B>(s: Tls<B>, h: Handshake<B>) { h.Done? ==> NewBlock(s, h.welcome) }

  /** accept returns a descriptor that is not open, SSL_new and `new` return pointers not in use,
      and only what is outstanding completes, in any order and with any result. */
  ghost predicate Enabled<B>(s: Tls<B>, e: Event<B>) {
    !s.crashed &&
    match e
    case Accept(fd, ssl, h, armed) => fd !in s.open && ssl !in s.handles && NewIfDone(s, h)
    case Complete(fd, i, res, again, h, t) =>
      fd < |s.flights| && i < |s.flights[fd]| && (fd in s.pending ==> NewIfDone(s, h))
  }

  /** What the handlers rely on without looking. */
  ghost predicate WellFormed<B>(s: Tls<B>) { Parallel(s) && PendingHaveHandles(s) }

  /** The operation is no longer outstanding. */
  ghost function Landed<B>(s: Tls<B>, fd: nat, i: nat): Tls<B>
    requires fd < |s.flights| && i < |s.flights[fd]|
  {
    s.(flights := s.flights[fd := Without(s.flights[fd], i)])
  }

  ghost function Next<B>(s: Tls<B>, e: Event<B>): Tls<B>
    requires WellFormed(s) && Enabled(s, e)
  {
    match e
    case Accept(fd, ssl, h, armed) => HandleAccept(s, fd, ssl, h, armed)
    case Complete(fd, i, res, again, h, t) =>
      Completion(Landed(s, fd, i), fd, s.flights[fd][i].kind, res, again, h, t)
  }

  // ---- The invariant ----

  ghost predicate Live<B>(s: Tls<B>, fd: int) { 0 <= fd < |s.conns| && s.conns[fd].buffer.Some? }

  /** on_connect ran, once and first. */
  ghost predicate SessionOk(q: seq<Call>) {
    |q| > 0 && q[0] == OnConnect && forall i :: 0 < i < |q| ==> q[i] != OnConnect
  }

  /** Under KTLS a connection is received and sent on; otherwise it is polled. */
  ghost predicate OpFits(op: TlsOp, ktls: bool) {
    match op
    case RecvKtls => ktls
    case SendKtls => ktls
    case PollIn => !ktls
    case PollOut => !ktls
    case _ => true
  }

  /** A pending record has a handle, no buffer and no callback yet; any other has both or neither,
      and with both only operations of its mode. A dead one still says what it waited for: nothing,
      or a handshake. */
  ghost predicate RecordOk<B>(c: Record<B>, q: seq<Call>, pending: bool) {
    if pending then c.ssl.Some? && c.buffer.None? && q == [] && (c.op == PollIn || c.op == HandshakePoll)
    else if c.buffer.Some? then c.ssl.Some? && SessionOk(q) && OpFits(c.op, c.ktls)
    else c.ssl.None? && (q == [] || SessionOk(q)) && (c.op == NoTlsOp || c.op == PollIn || c.op == HandshakePoll)
  }

  ghost predicate RecordsOk<B>(s: Tls<B>) {
    && Parallel(s)
    && (forall fd :: fd in s.pending ==> fd < |s.conns|)
    && (forall fd :: 0 <= fd < |s.conns| ==> RecordOk(s.conns[fd], s.calls[fd], fd in s.pending))
    && (forall fd :: fd in s.open <==> fd in s.pending || Live(s, fd))
    && s.connects == s.handshakes
  }

  ghost function Handles<B>(conns: seq<Record<B>>): seq<Option<nat>> {
    seq(|conns|, i requires 0 <= i < |conns| => conns[i].ssl)
  }

  ghost function Buffers<B>(conns: seq<Record<B>>): seq<Option<B>> {
    seq(|conns|, i requires 0 <= i < |conns| => conns[i].buffer)
  }

  /** A handle is held by one record or was freed, once; a buffer is held by one record or
      pooled, once; never both. */
  ghost predicate OwnersOk<B>(s: Tls<B>) {
    Divided(Handles(s.conns), s.freed, s.handles) && Divided(Buffers(s.conns), s.pool, s.buffers)
  }

  ghost predicate Inv<B>(s: Tls<B>) {
    RecordsOk(s) && OwnersOk(s)
  }

  // ---- Records ----

  lemma SlotsSet<B>(conns: seq<Record<B>>, fd: nat, c: Record<B>)
    requires fd < |conns|
    ensures Handles(conns[fd := c]) == Handles(conns)[fd := c.ssl]
    ensures Buffers(conns[fd := c]) == Buffers(conns)[fd := c.buffer]
    ensures c.ssl == conns[fd].ssl ==> Handles(conns[fd := c]) == Handles(conns)
    ensures c.buffer == conns[fd].buffer ==> Buffers(conns[fd := c]) == Buffers(conns)
  {
  }

  /** A live record may change its operation, its state and its KTLS flag. */
  lemma SetLiveInv<B>(s: Tls<B>, fd: nat, c: Record<B>)
    requires Inv(s) && Live(s, fd) && c.ssl == s.conns[fd].ssl && c.buffer == s.conns[fd].buffer
    requires OpFits(c.op, c.ktls)
    ensures Inv(SetRecord(s, fd, c)) && Live(SetRecord(s, fd, c), fd)
  {
    SlotsSet(s.conns, fd, c);
  }

  lemma FlightsInv<B>(s: Tls<B>, flights: seq<seq<Flight<B>>>)
    requires Inv(s) && |flights| == |s.flights|
    ensures Inv(s.(flights := flights))
  {
  }

  lemma ArmInv<B>(s: Tls<B>, fd: nat, op: TlsOp, armed: bool)
    requires Inv(s) && Live(s, fd) && OpFits(op, s.conns[fd].ktls)
    ensures Inv(Arm(s, fd, op, armed)) && Live(Arm(s, fd, op, armed), fd)
  {
    if armed {
      var c := s.conns[fd].(op := op);
      SetLiveInv(s, fd, c);
      FlightsInv(SetRecord(s, fd, c), Arm(s, fd, op, armed).flights);
    }
  }

  lemma CalledInv<B>(s: Tls<B>, fd: nat, c: Call)
    requires Inv(s) && Live(s, fd) && c != OnConnect
    ensures Inv(Called(s, fd, c)) && Live(Called(s, fd, c), fd)
  {
    assert SessionOk(s.calls[fd]);
  }

  // ---- remove_connection ----

  lemma RemoveInv<B>(s: Tls<B>, fd: nat)
    requires Inv(s)
    ensures Inv(TlsModel.RemoveConnection(s, fd))
  {
    if fd < |s.conns| {
      ReleaseOwners(s, fd);
      var s1 := Release(s, fd);
      SlotsSet(s1.conns, fd, s1.conns[fd].(op := NoTlsOp));
      RemoveRecords(s, fd);
    }
  }

  lemma RemoveRecords<B>(s: Tls<B>, fd: nat)
    requires RecordsOk(s) && fd < |s.conns|
    ensures RecordsOk(TlsModel.RemoveConnection(s, fd))
  {
    assert RecordOk(s.conns[fd], s.calls[fd], fd in s.pending);
  }

  lemma ReleaseOwners<B>(s: Tls<B>, fd: nat)
    requires OwnersOk(s) && fd < |s.conns|
    ensures OwnersOk(Release(s, fd))
  {
    var c := s.conns[fd];
    SlotsSet(s.conns, fd, c.(ssl := None, buffer := None));
    if c.ssl.Some? {
      Ownership.Released(Handles(s.conns), s.freed, s.handles, fd);
    }
    if c.buffer.Some? {
      Ownership.Released(Buffers(s.conns), s.pool, s.buffers, fd);
    }
  }

  // ---- Transfers ----

  lemma ApplyStateInv<B>(s: Tls<B>, fd: nat, next: ElState, armed: bool)
    requires Inv(s) && Live(s, fd)
    ensures Inv(ApplyState(s, fd, next, armed)) && ApplyState(s, fd, next, armed).crashed == s.crashed
    ensures next != Die ==> Live(ApplyState(s, fd, next, armed), fd)
  {
    if next == Die {
      RemoveInv(s, fd);
    } else {
      var c := s.conns[fd].(state := next);
      SetLiveInv(s, fd, c);
      ArmInv(SetRecord(s, fd, c), fd,
        if next == Reading then if c.ktls then RecvKtls else PollIn else if c.ktls then SendKtls else PollOut, armed);
    }
  }

  /** A callback and its answer. */
  lemma AnsweredInv<B>(s: Tls<B>, fd: nat, c: Call, next: ElState, armed: bool)
    requires Inv(s) && Live(s, fd) && c != OnConnect
    ensures var s' := ApplyState(Called(s, fd, c), fd, next, armed); Inv(s') && s'.crashed == s.crashed
  {
    CalledInv(s, fd, c);
    ApplyStateInv(Called(s, fd, c), fd, next, armed);
  }

  lemma HandleReadInv<B>(s: Tls<B>, fd: nat, t: Transfer)
    requires Inv(s) && Live(s, fd)
    ensures Inv(HandleRead(s, fd, t)) && HandleRead(s, fd, t).crashed == s.crashed
  {
    if t.error && !s.conns[fd].ktls {
      RemoveInv(s, fd);
    } else if t.got {
      AnsweredInv(s, fd, OnRead, t.next, t.armed);
    } else if !s.conns[fd].ktls {
      ArmInv(s, fd, PollIn, t.armed);
    }
  }

  lemma HandleWriteInv<B>(s: Tls<B>, fd: nat, t: Transfer)
    requires Inv(s) && Live(s, fd)
    ensures Inv(HandleWrite(s, fd, t)) && HandleWrite(s, fd, t).crashed == s.crashed
  {
    if t.error {
      AnsweredInv(s, fd, OnError, if s.conns[fd].ktls then Die else t.next, t.armed);
    } else if t.drained {
      AnsweredInv(s, fd, OnWrite, t.next, t.armed);
    } else if !s.conns[fd].ktls {
      ArmInv(s, fd, PollOut, t.armed);
    }
  }

  // ---- Handshakes ----

  /** A pending record after its handshake completed and on_connect was called. */
  ghost function Connected<B>(s: Tls<B>, fd: nat, w: Welcome<B>): Tls<B>
    requires Parallel(s) && fd < |s.conns| && s.conns[fd].ssl.Some?
  {
    Greeted(RegisterConnection(Shaken(s.(pending := s.pending - {fd})), fd, s.conns[fd].ssl.value, w.block), fd, w.ktls)
  }

  lemma ConnectedOwners<B>(s: Tls<B>, fd: nat, w: Welcome<B>)
    requires Parallel(s) && OwnersOk(s) && NewBlock(s, w)
    requires fd < |s.conns| && s.conns[fd].ssl.Some? && s.conns[fd].buffer.None?
    ensures OwnersOk(Connected(s, fd, w))
  {
    var s' := Connected(s, fd, w);
    SlotsSet(s.conns, fd, s'.conns[fd]);
    assert s'.conns == s.conns[fd := s'.conns[fd]];
    if s.pool != [] {
      Taken(Buffers(s.conns), s.pool, s.buffers, fd);
      assert s'.buffers == s.buffers;
    } else {
      Held(Buffers(s.conns), s.pool, s.buffers, fd, w.block);
    }
  }

  lemma ConnectedInv<B>(s: Tls<B>, fd: nat, w: Welcome<B>)
    requires Inv(s) && fd in s.pending && NewBlock(s, w)
    ensures fd < |s.conns| && s.conns[fd].ssl.Some?
    ensures Inv(Connected(s, fd, w)) && Live(Connected(s, fd, w), fd)
  {
    assert RecordOk(s.conns[fd], s.calls[fd], fd in s.pending);
    ConnectedOwners(s, fd, w);
    assert Connected(s, fd, w).calls[fd] == [OnConnect];
  }

  lemma AfterConnectInv<B>(s: Tls<B>, fd: nat, w: Welcome<B>)
    requires Inv(s) && Live(s, fd)
    ensures Inv(AfterConnect(s, fd, w)) && AfterConnect(s, fd, w).crashed == s.crashed
  {
    if w.next == Die {
      RemoveInv(s, fd);
    } else {
      ApplyStateInv(s, fd, w.next, w.armed);
      HandleReadInv(ApplyState(s, fd, w.next, w.armed), fd, w.first);
    }
  }

  /** A completed handshake, on_connect's answer and the read that follows it. */
  lemma CompleteInv<B>(s: Tls<B>, fd: nat, w: Welcome<B>)
    requires Inv(s) && fd in s.pending && NewBlock(s, w)
    ensures fd < |s.conns| && s.conns[fd].ssl.Some?
    ensures var s' := AfterConnect(Connected(s, fd, w), fd, w); Inv(s') && s'.crashed == s.crashed
  {
    ConnectedInv(s, fd, w);
    AfterConnectInv(Connected(s, fd, w), fd, w);
  }

  lemma GrowInv<B>(s: Tls<B>, fd: nat)
    requires Inv(s)
    ensures Inv(Grow(s, fd))
    ensures Grow(s, fd) == s.(conns := Grow(s, fd).conns, calls := Grow(s, fd).calls, flights := Grow(s, fd).flights,
                                 epochs := Grow(s, fd).epochs)
  {
    var s' := Grow(s, fd);
    if fd >= |s.conns| {
      var n := fd + 1 - |s.conns|;
      var hs, bs := seq(n, i => None), seq(n, i => None);
      assert Handles(s'.conns) == Handles(s.conns) + hs;
      assert Buffers(s'.conns) == Buffers(s.conns) + bs;
      Longer(Handles(s.conns), s.freed, s.handles, hs);
      Longer(Buffers(s.conns), s.pool, s.buffers, bs);
    }
  }

  lemma WaitingInv<B>(s: Tls<B>, fd: nat, ssl: nat)
    requires Inv(s) && fd < |s.conns| && fd !in s.open && ssl !in s.handles
    ensures Inv(Waiting(s, fd, ssl)) && fd in Waiting(s, fd, ssl).pending
  {
    assert RecordOk(s.conns[fd], s.calls[fd], fd in s.pending);
    var s' := Waiting(s, fd, ssl);
    SlotsSet(s.conns, fd, s'.conns[fd]);
    Held(Handles(s.conns), s.freed, s.handles, fd, ssl);
  }

  /** A pending record may change what it waits for: a handshake, with or without a poll. */
  lemma SetPendingInv<B>(s: Tls<B>, fd: nat, op: TlsOp)
    requires Inv(s) && fd in s.pending && (op == PollIn || op == HandshakePoll)
    ensures fd < |s.conns| && Inv(SetOp(s, fd, op))
  {
    assert RecordOk(s.conns[fd], s.calls[fd], fd in s.pending);
    SlotsSet(s.conns, fd, s.conns[fd].(op := op));
  }

  lemma ArmPendingInv<B>(s: Tls<B>, fd: nat, armed: bool)
    requires Inv(s) && fd in s.pending
    ensures fd < |s.conns| && Inv(Arm(s, fd, PollIn, armed))
  {
    if armed {
      SetPendingInv(s, fd, PollIn);
      FlightsInv(SetOp(s, fd, PollIn), Arm(s, fd, PollIn, armed).flights);
    }
  }

  /** A failed handshake's record is dead, and what it waited for stays recorded. */
  lemma FailedInv<B>(s: Tls<B>, fd: nat)
    requires Inv(s) && fd in s.pending
    ensures fd < |s.conns| && s.conns[fd].ssl.Some?
    ensures Inv(Close(SetRecord(s, fd, s.conns[fd].(ssl := None)).(
                  freed := s.freed + [s.conns[fd].ssl.value], pending := s.pending - {fd}), fd))
  {
    assert RecordOk(s.conns[fd], s.calls[fd], fd in s.pending);
    SlotsSet(s.conns, fd, s.conns[fd].(ssl := None));
    Ownership.Released(Handles(s.conns), s.freed, s.handles, fd);
  }

  /** A handshake done at once is a pending one completed. */
  lemma DoneAtOnce<B>(s: Tls<B>, fd: nat, ssl: nat, w: Welcome<B>)
    requires Parallel(s) && fd < |s.conns| && fd !in s.pending && s.conns[fd].ssl.None?
    ensures Connected(Waiting(s, fd, ssl), fd, w) ==
            Greeted(RegisterConnection(Shaken(Accepted(s, fd, ssl)), fd, ssl, w.block), fd, w.ktls)
  {
    assert Waiting(s, fd, ssl).pending - {fd} == s.pending;
    assert s.calls[fd := []][fd := [OnConnect]] == s.calls[fd := [OnConnect]];
  }

  /** A new handle freed at once. */
  lemma RefusedInv<B>(s: Tls<B>, fd: nat, ssl: nat)
    requires Inv(s) && fd < |s.conns| && fd !in s.open && ssl !in s.handles
    ensures Inv(Close(Accepted(s, fd, ssl).(freed := s.freed + [ssl]), fd))
  {
    assert RecordOk(s.conns[fd], s.calls[fd], fd in s.pending);
    var hs := Handles(s.conns);
    Held(hs, s.freed, s.handles, fd, ssl);
    Ownership.Released(hs[fd := Some(ssl)], s.freed, s.handles + {ssl}, fd);
    assert hs[fd := Some(ssl)][fd := None] == hs;
  }

  lemma StartDoneInv<B>(s: Tls<B>, fd: nat, ssl: nat, w: Welcome<B>)
    requires Inv(s) && fd < |s.conns| && fd !in s.open && ssl !in s.handles && NewBlock(s, w)
    ensures var s' := TlsModel.Complete(Shaken(Accepted(s, fd, ssl)), fd, ssl, w); Inv(s') && s'.crashed == s.crashed
  {
    assert RecordOk(s.conns[fd], s.calls[fd], fd in s.pending);
    WaitingInv(s, fd, ssl);
    CompleteInv(Waiting(s, fd, ssl), fd, w);
    DoneAtOnce(s, fd, ssl, w);
  }

  lemma StartInv<B>(s: Tls<B>, fd: nat, ssl: nat, h: Handshake<B>, armed: bool)
    requires Inv(s) && fd < |s.conns| && fd !in s.open && ssl !in s.handles && NewIfDone(s, h)
    ensures var s' := StartHandshake(s, fd, ssl, h, armed); Inv(s') && s'.crashed == s.crashed
  {
    match h
    case WantRead =>
      WaitingInv(s, fd, ssl);
      ArmPendingInv(Waiting(s, fd, ssl), fd, armed);
    case Done(w) => StartDoneInv(s, fd, ssl, w);
    case Failed => RefusedInv(s, fd, ssl);
  }

  lemma AcceptInv<B>(s: Tls<B>, fd: nat, ssl: nat, h: Handshake<B>, armed: bool)
    requires Inv(s) && Enabled(s, Accept(fd, ssl, h, armed))
    ensures Inv(HandleAccept(s, fd, ssl, h, armed)) && !HandleAccept(s, fd, ssl, h, armed).crashed
  {
    GrowInv(s, fd);
    StartInv(Grow(s, fd), fd, ssl, h, armed);
  }

  lemma RetryInv<B>(s: Tls<B>, fd: nat, h: Handshake<B>, armed: bool)
    requires Inv(s) && fd in s.pending && NewIfDone(s, h)
    ensures fd < |s.conns| && s.conns[fd].ssl.Some?
    ensures var s' := RetryHandshake(s, fd, h, armed); Inv(s') && s'.crashed == s.crashed
  {
    assert RecordOk(s.conns[fd], s.calls[fd], fd in s.pending);
    match h
    case Done(w) => CompleteInv(s, fd, w);
    case WantRead =>
      SetPendingInv(s, fd, HandshakePoll);
      ArmPendingInv(SetOp(s, fd, HandshakePoll), fd, armed);
    case Failed => FailedInv(s, fd);
  }

  lemma KtlsReceivedInv<B>(s: Tls<B>, fd: nat, t: Transfer)
    requires Inv(s) && Live(s, fd)
    ensures Inv(KtlsReceived(s, fd, t)) && KtlsReceived(s, fd, t).crashed == s.crashed
  {
    SetLiveInv(s, fd, s.conns[fd].(op := NoTlsOp));
    AnsweredInv(SetOp(s, fd, NoTlsOp), fd, OnRead, t.next, t.armed);
  }

  lemma KtlsSentInv<B>(s: Tls<B>, fd: nat, t: Transfer)
    requires Inv(s) && Live(s, fd) && s.conns[fd].ktls
    ensures Inv(KtlsSent(s, fd, t)) && KtlsSent(s, fd, t).crashed == s.crashed
  {
    SetLiveInv(s, fd, s.conns[fd].(op := NoTlsOp));
    if t.drained {
      AnsweredInv(SetOp(s, fd, NoTlsOp), fd, OnWrite, t.next, t.armed);
    } else {
      ArmInv(SetOp(s, fd, NoTlsOp), fd, SendKtls, t.armed);
    }
  }

  lemma LiveCompletionInv<B>(s: Tls<B>, fd: nat, kind: Kind, res: int, again: bool,
                             h: Handshake<B>, t: Transfer)
    requires Inv(s) && fd !in s.pending && Live(s, fd) && (res >= 0 || again)
    ensures var s' := Completion(s, fd, kind, res, again, h, t); Inv(s') && s'.crashed == s.crashed
  {
    match kind
    case RecvDone => KtlsReceivedInv(s, fd, t);
    case SendDone =>
      if s.conns[fd].op == SendKtls {
        KtlsSentInv(s, fd, t);
      }
    case PollInDone => HandleReadInv(s, fd, t);
    case PollOutDone => HandleWriteInv(s, fd, t);
  }

  /** A poll, not failed, of a record that is closed, still waits for that poll and says
      `reading`: its null buffer is used. */
  ghost predicate NullUse<B>(s: Tls<B>, fd: nat, kind: Kind, res: int, again: bool)
    requires fd < |s.conns|
  {
    && kind == PollInDone && (res >= 0 || again)
    && fd !in s.open && s.conns[fd].op == PollIn && s.conns[fd].state == Reading
  }

  ghost predicate Faults<B>(s: Tls<B>, e: Event<B>)
    requires Parallel(s) && Enabled(s, e)
  {
    match e
    case Accept(fd, ssl, h, armed) => false
    case Complete(fd, i, res, again, h, t) => NullUse(s, fd, s.flights[fd][i].kind, res, again)
  }

  /** A completion for a dead record changes nothing, unless it is a poll the record still waits
      for while it says `reading`: then the null buffer is used. */
  lemma DeadCompletionIs<B>(s: Tls<B>, fd: nat, kind: Kind, res: int, again: bool,
                            h: Handshake<B>, t: Transfer)
    requires Inv(s) && fd < |s.conns| && fd !in s.open && (res >= 0 || again)
    ensures fd !in s.pending
    ensures Completion(s, fd, kind, res, again, h, t) ==
            if NullUse(s, fd, kind, res, again) then Crash(s) else s
  {
    assert RecordOk(s.conns[fd], s.calls[fd], fd in s.pending);
  }

  lemma CrashInv<B>(s: Tls<B>)
    requires Inv(s)
    ensures Inv(Crash(s))
  {
  }

  lemma CompletionInv<B>(s: Tls<B>, fd: nat, kind: Kind, res: int, again: bool,
                         h: Handshake<B>, t: Transfer)
    requires Inv(s) && fd < |s.conns| && (fd in s.pending ==> NewIfDone(s, h))
    requires fd in s.pending ==> s.conns[fd].ssl.Some?
    ensures var s' := Completion(s, fd, kind, res, again, h, t);
            Inv(s') && s'.crashed == (s.crashed || NullUse(s, fd, kind, res, again))
  {
    assert RecordOk(s.conns[fd], s.calls[fd], fd in s.pending);
    if res < 0 && !again {
      RemoveInv(s, fd);
    } else if fd in s.pending {
      RetryInv(s, fd, h, t.armed);
    } else if Live(s, fd) {
      LiveCompletionInv(s, fd, kind, res, again, h, t);
    } else {
      DeadCompletionIs(s, fd, kind, res, again, h, t);
      CrashInv(s);
    }
  }

  lemma InvWellFormed<B>(s: Tls<B>)
    requires Inv(s)
    ensures WellFormed(s)
  {
  }

  /** Every step keeps the invariant; and it makes the loop fail exactly when a poll completes for
      a record that is dead, still waits for that poll and says `reading`. */
  lemma StepInv<B>(s: Tls<B>, e: Event<B>)
    requires Inv(s) && Enabled(s, e)
    ensures WellFormed(s) && Inv(Next(s, e))
    ensures Next(s, e).crashed <==> Faults(s, e)
  {
    InvWellFormed(s);
    match e
    case Accept(fd, ssl, h, armed) => AcceptInv(s, fd, ssl, h, armed);
    case Complete(fd, i, res, again, h, t) =>
      FlightsInv(s, Landed(s, fd, i).flights);
      InvWellFormed(Landed(s, fd, i));
      CompletionInv(Landed(s, fd, i), fd, s.flights[fd][i].kind, res, again, h, t);
  }

  // ---- Runs ----

  ghost predicate Init<B>(s: Tls<B>) {
    && Parallel(s) && (forall fd :: 0 <= fd < |s.conns| ==>
                         s.conns[fd] == EmptyRecord() && s.flights[fd] == [] && s.calls[fd] == [] && s.epochs[fd] == 0)
    && s.pending == {} && s.handles == {} && s.freed == [] && s.open == {} && s.stray == 0
    && (forall i, j :: 0 <= i < j < |s.pool| ==> s.pool[i] != s.pool[j])
    && s.buffers == (set b | b in s.pool) && s.handshakes == 0 == s.connects && !s.crashed
  }

  ghost predicate Steps<B>(s: Tls<B>, e: Event<B>, s': Tls<B>) {
    WellFormed(s) && Enabled(s, e) && s' == Next(s, e)
  }

  ghost predicate IsRun<B>(trace: seq<Tls<B>>, events: seq<Event<B>>) {
    && |trace| == |events| + 1 && Init(trace[0])
    && forall i :: 0 <= i < |events| ==> Steps(trace[i], events[i], trace[i + 1])
  }

  lemma InitInv<B>(s: Tls<B>)
    requires Init(s)
    ensures Inv(s)
  {
  }

  /** In every reachable state: each handle has one owner or was freed once, each buffer has one
      owner or is pooled once, exactly the descriptors of pending and registered connections are
      open, a pending connection has a handle and no buffer, any other has both or neither, and
      every connection's first callback is its one on_connect, of which there is one for each
      completed handshake. */
  lemma {:induction false} Lifecycle<B>(trace: seq<Tls<B>>, events: seq<Event<B>>, n: nat)
    requires IsRun(trace, events) && n < |trace|
    ensures Inv(trace[n])
    decreases n
  {
    if n == 0 {
      InitInv(trace[0]);
    } else {
      Lifecycle(trace, events, n - 1);
      assert Steps(trace[n - 1], events[n - 1], trace[n]);
      StepInv(trace[n - 1], events[n - 1]);
    }
  }

  // ---- Shutdown ----

  lemma {:induction false} ReleasedKeeps<B>(s: Tls<B>, n: nat)
    requires OwnersOk(s) && n <= |s.conns|
    ensures OwnersOk(TlsModel.Released(s, n))
  {
    if n > 0 {
      ReleasedKeeps(s, n - 1);
      ReleaseOwners(TlsModel.Released(s, n - 1), n - 1);
    }
  }

  lemma {:induction false} ReleasedClears<B>(s: Tls<B>, n: nat)
    requires n <= |s.conns|
    ensures var s' := TlsModel.Released(s, n); s' == s.(conns := s'.conns, freed := s'.freed, pool := s'.pool)
    ensures forall fd :: 0 <= fd < n ==> TlsModel.Released(s, n).conns[fd] == s.conns[fd].(ssl := None, buffer := None)
    ensures forall fd :: n <= fd < |s.conns| ==> TlsModel.Released(s, n).conns[fd] == s.conns[fd]
    ensures s.freed <= TlsModel.Released(s, n).freed && s.pool <= TlsModel.Released(s, n).pool
  {
    if n > 0 {
      ReleasedClears(s, n - 1);
    }
  }

  /** When the loop has ended every handle ever made has been freed, exactly once, and every buffer is
      back in the pool, exactly once, behind those that were there; no record has either, and no handshake
      is pending; but the connections' descriptors are still open, and nothing else has changed. */
  lemma ShutdownFreesAll<B>(s: Tls<B>)
    requires Inv(s)
    ensures var s' := Shutdown(s);
            && (forall h :: h in s.handles <==> h in s'.freed)
            && (forall i, j :: 0 <= i < j < |s'.freed| ==> s'.freed[i] != s'.freed[j])
            && (forall b :: b in s.buffers <==> b in s'.pool)
            && (forall i, j :: 0 <= i < j < |s'.pool| ==> s'.pool[i] != s'.pool[j])
            && (forall fd :: fd in s'.open <==> fd in s.pending || Live(s, fd))
            && s.freed <= s'.freed && s.pool <= s'.pool && |s'.conns| == |s.conns|
            && (forall fd :: 0 <= fd < |s.conns| ==> s'.conns[fd] == s.conns[fd].(ssl := None, buffer := None))
            && s' == s.(conns := s'.conns, freed := s'.freed, pool := s'.pool, pending := {})
  {
    ReleasedKeeps(s, |s.conns|);
    ReleasedClears(s, |s.conns|);
    var s' := Shutdown(s);
    AllReleased(Handles(s'.conns), s'.freed, s'.handles);
    AllReleased(Buffers(s'.conns), s'.pool, s'.buffers);
  }
}
