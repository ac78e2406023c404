/** uring_tls_event_loop as it runs: records, the pending set, the pool and the buffers are changed
    in place. Each handler is proved to make exactly the step that module TlsMachine gives for its
    input: what it submits, which callback it runs, and what it leaves in which buffer. */
module UringTlsLoop {
  import opened Buffer
  import opened LoopModel
  import opened Pool
  import opened RingValue
  import opened SslLoops
  import opened Tags
  import opened TlsMachine
  import opened TlsModel
  import opened TlsSafety
  import opened TlsTransfer

  type Ptr = FixedSizeBuffer

  /** The low two bits of an operation's tag. */
  function KindCode(kind: Kind): nat {
    match kind
    case RecvDone => RECV
    case SendDone => SEND
    case PollInDone => POLL_IN
    case PollOutDone => POLL_OUT
  }

  class UringTlsEventLoop {
    const pool: BufferPool            // m_pl
    var conns: seq<Record<Ptr>>       // m_connections
    var pending: set<nat>             // m_pending_handshakes
    var freed: seq<nat>               // calls of SSL_free, in order

    // Every buffer on the heap; the rest of the model's state.
    ghost var created: set<Ptr>
    ghost var handles: set<nat>
    ghost var calls: seq<seq<TlsModel.Call>>
    ghost var flights: seq<seq<Flight<Ptr>>>
    ghost var epochs: seq<nat>
    ghost var open: set<nat>
    ghost var stray: nat
    ghost var handshakes: nat
    ghost var connects: nat
    ghost var crashed: bool

    ghost function View(): Tls<Ptr>
      reads this, pool
    {
      Tls(conns, pending, pool.impl, created, handles, freed, calls, flights, epochs, open, stray,
          handshakes, connects, crashed)
    }

    /** The buffers on the heap, as values. */
    ghost function Heap(): map<Ptr, Ring>
      reads this`created, created, set b: Ptr | b in created :: b.data
    {
      map b: Ptr | b in created :: b.Value()
    }

    /** The whole state as a value of the machine. */
    ghost function Whole(): Machine<Ptr>
      reads this, pool, created, set b: Ptr | b in created :: b.data
    {
      Machine(View(), Heap(), pool.size)
    }

    ghost predicate HeapOk()
      reads this`created, created, set b: Ptr | b in created :: b.data
    {
      && (forall b: Ptr :: b in created ==> b.Valid() && b.data.Length == pool.size)
      && (forall b: Ptr, b': Ptr :: b in created && b' in created && b != b' ==> b.data != b'.data)
    }

    /** Pooled buffers are different ones, and empty. */
    ghost predicate PoolOk()
      reads this`created, pool, created
    {
      && (forall i, j :: 0 <= i < j < |pool.impl| ==> pool.impl[i] != pool.impl[j])
      && (forall i :: 0 <= i < |pool.impl| ==>
            pool.impl[i] in created && pool.impl[i].head == 0 == pool.impl[i].tail)
    }

    ghost predicate Valid()
      reads this, pool, created, set b: Ptr | b in created :: b.data
    {
      && IsCapacity(pool.size) && HeapOk() && PoolOk() && Parallel(View())
      && forall fd :: 0 <= fd < |conns| && conns[fd].buffer.Some? ==> conns[fd].buffer.value in created
    }

    /** The record's buffer, if it has one, is not in the pool. */
    ghost predicate Owned(fd: nat)
      reads this, pool
    {
      fd < |conns| && (conns[fd].buffer.Some? ==> conns[fd].buffer.value !in pool.impl)
    }

    constructor (size: nat, maxConnections: nat)
      requires IsCapacity(size)
      ensures Valid() && fresh(pool) && fresh(created) && pool.size == size
      ensures Init(View()) && |conns| == maxConnections + 1 && |pool.impl| == maxConnections
    {
      var p := new BufferPool(size);
      p.Prepool(maxConnections);
      this.pool := p;
      conns := seq(maxConnections + 1, i => EmptyRecord());
      calls, flights := seq(maxConnections + 1, i => []), seq(maxConnections + 1, i => []);
      epochs := seq(maxConnections + 1, i => 0);
      pending, freed, handles, open := {}, [], {}, {};
      stray, handshakes, connects, crashed := 0, 0, 0, false;
      created := set b | b in p.impl;
    }

    // ---- The heap ----

    /** A change of one buffer is a change of one entry of the heap. */
    twostate lemma OnlyChanged(b: Ptr)
      requires old(HeapOk()) && b in old(created) && created == old(created)
      requires b.Valid() && b.data.Length == pool.size
      requires forall c: Ptr :: c in created && c != b ==> c.Value() == old(c.Value()) && c.Valid()
      ensures HeapOk() && Heap() == old(Heap())[b := b.Value()]
    {
    }

    /** A new buffer is a new entry of the heap. */
    twostate lemma OnlyAdded(new b: Ptr)
      requires old(HeapOk()) && created == old(created) + {b} && b !in old(created) && fresh(b) && fresh(b.data)
      requires b.Valid() && b.data.Length == pool.size
      requires forall c: Ptr :: c in old(created) ==> c.Value() == old(c.Value()) && c.Valid()
      ensures HeapOk() && Heap() == old(Heap())[b := b.Value()]
    {
    }

    lemma InHeap(b: Ptr)
      requires HeapOk() && b in created
      ensures b in Heap() && Heap()[b] == b.Value() && b.Value().Valid()
    {
    }

    lemma HeapHolds()
      ensures Heap().Keys == created
    {
    }

    /** No buffer changed. */
    twostate lemma NoneChanged()
      requires old(HeapOk()) && created == old(created)
      requires forall c: Ptr :: c in created ==> c.Value() == old(c.Value()) && c.Valid()
      ensures HeapOk() && Heap() == old(Heap())
    {
    }

    /** The state is one that the machine may be in, and a record's buffer is on the heap. */
    lemma WholeOk()
      requires Valid()
      ensures MachineOk(Whole())
      ensures forall fd :: 0 <= fd < |conns| ==> Backed(conns[fd].buffer, Heap())
    {
    }

    /** A callback's use of a buffer. */
    method RunCallback(b: Ptr, ops: seq<BufferOp>)
      requires HeapOk() && b in created
      modifies b, b.data
      ensures HeapOk() && Heap() == old(Heap())[b := Used(old(b.Value()), ops)]
    {
      for n := 0 to |ops|
        invariant b.Valid() && b.data.Length == pool.size
        invariant Used(b.Value(), ops[n..]) == Used(old(b.Value()), ops)
      {
        assert ops[n..][0] == ops[n] && ops[n..][1..] == ops[n + 1..];
        match ops[n]
        case WriteOp(src) =>
          var k := b.Write(src);
        case ReadOp(size) =>
          var k, d := b.Read(size);
        case ResetOp =>
          b.Reset();
      }
      OnlyChanged(b);
    }

    /** handle_read's use of its buffer. */
    method Receive(b: Ptr, answers: Answers, plain: Plain) returns (e: ReadEnd)
      requires HeapOk() && b in created
      modifies b, b.data
      ensures HeapOk() && e == ReadRest(old(b.Value()), answers, 0)
      ensures Heap() == old(Heap())[b := old(b.Value()).Append(Slice(plain, 0, e.moved))]
    {
      e := ReadAll(b, answers, plain);
      OnlyChanged(b);
    }

    /** handle_write's use of its buffer. */
    method Transmit(b: Ptr, answers: Answers) returns (error: bool, want: bool, ghost e: WriteEnd)
      requires HeapOk() && b in created
      modifies b
      ensures HeapOk() && e == WriteRest(old(b.Value()), answers, 0) && error == e.error && want == e.want
      ensures Heap() == old(Heap())[b := old(b.Value()).AdvanceHead(e.taken)]
    {
      error, want, e := WriteAll(b, answers);
      OnlyChanged(b);
    }

    // ---- Registration and removal ----

    method FreeSsl(ssl: nat)
      modifies this`freed
      ensures freed == old(freed) + [ssl]
    {
      freed := freed + [ssl];
    }

    method CloseDescriptor(fd: nat)
      modifies this`open, this`stray
      ensures View() == Close(old(View()), fd)
    {
      if fd !in open {
        stray := stray + 1;
      }
      open := open - {fd};
    }

    ghost method Call(fd: nat, c: TlsModel.Call)
      requires fd < |calls|
      modifies this`calls, this`connects
      ensures View() == Called(old(View()), fd, c)
    {
      calls := calls[fd := calls[fd] + [c]];
      if c == OnConnect {
        connects := connects + 1;
      }
    }

    method SetConn(fd: nat, c: Record<Ptr>)
      requires Valid() && fd < |conns| && (c.buffer.Some? ==> c.buffer.value in created)
      modifies this`conns
      ensures Valid() && View() == SetRecord(old(View()), fd, c) && Heap() == old(Heap())
    {
      conns := conns[fd := c];
    }

    /** The record's buffer is emptied and goes back to the pool. */
    method ReleaseBuffer(fd: nat)
      requires Valid() && Owned(fd)
      modifies this`conns, pool, created
      ensures Valid() && Owned(fd) && Heap() == Emptied(old(conns)[fd].buffer, old(Heap()))
      ensures View() == var s := old(View());
                        SetRecord(s, fd, s.conns[fd].(buffer := None)).(
                          pool := if s.conns[fd].buffer.Some? then s.pool + [s.conns[fd].buffer.value] else s.pool)
    {
      hide Heap;
      if conns[fd].buffer.Some? {
        var b := conns[fd].buffer.value;
        InHeap(b);
        pool.Redeem(b);
        OnlyChanged(b);
        SetConn(fd, conns[fd].(buffer := None));
      } else {
        assert conns[fd := conns[fd].(buffer := None)] == conns;
      }
    }

    method ReleaseHandle(fd: nat)
      requires Valid() && Owned(fd)
      modifies this`conns, this`freed
      ensures Valid() && Owned(fd)
      ensures View() == var s := old(View());
                        SetRecord(s, fd, s.conns[fd].(ssl := None)).(
                          freed := if s.conns[fd].ssl.Some? then s.freed + [s.conns[fd].ssl.value] else s.freed)
    {
      if conns[fd].ssl.Some? {
        FreeSsl(conns[fd].ssl.value);
        conns := conns[fd := conns[fd].(ssl := None)];
      } else {
        assert conns[fd := conns[fd].(ssl := None)] == conns;
      }
    }

    /** The handle is freed and the buffer pooled. */
    method GiveUp(fd: nat)
      requires Valid() && Owned(fd)
      modifies this`conns, this`freed, pool, created
      ensures Valid() && Owned(fd) && View() == Release(old(View()), fd)
      ensures Heap() == Emptied(old(conns)[fd].buffer, old(Heap()))
    {
      hide Valid, Heap, Emptied;
      ghost var s := View();
      ReleaseHandle(fd);
      ReleaseBuffer(fd);
      assert conns == s.conns[fd := s.conns[fd].(ssl := None, buffer := None)];
    }

    method Forget(fd: nat)
      requires Valid() && Owned(fd)
      modifies this`conns, this`pending, this`open, this`stray
      ensures Valid() && View() == Close(SetOp(old(View()), fd, NoTlsOp).(pending := old(pending) - {fd}), fd)
    {
      pending := pending - {fd};
      conns := conns[fd := conns[fd].(op := NoTlsOp)];
      CloseDescriptor(fd);
    }

    method RemoveConnection(fd: nat)
      requires Valid() && (fd < |conns| ==> Owned(fd))
      modifies this, pool, created
      ensures Valid() && created == old(created) && View() == TlsModel.RemoveConnection(old(View()), fd)
      ensures Heap() == if fd < |old(conns)| then Emptied(old(conns)[fd].buffer, old(Heap())) else old(Heap())
    {
      if fd >= |conns| { return; }
      GiveUp(fd);
      Forget(fd);
    }

    /** An empty buffer: the pool's last, or a new one. */
    method AllocateBuffer() returns (b: Ptr, ghost n: Option<New<Ptr>>)
      requires Valid()
      modifies this`created, pool
      ensures Valid() && created == old(created) + {b} && b !in pool.impl
      ensures pool.impl == if old(pool.impl) != [] then old(pool.impl)[..|old(pool.impl)| - 1] else []
      ensures NewOk(old(pool.impl), old(Heap()), pool.size, n)
      ensures b == Granted(old(pool.impl), n) && Heap() == Supplied(old(pool.impl), old(Heap()), n)
      ensures fresh(created - old(created)) && forall c: Ptr :: c in created - old(created) ==> fresh(c.data)
    {
      hide Heap;
      HeapHolds();
      b := pool.Allocate();
      created := created + {b};
      n := None;
      if old(pool.impl) == [] {
        n := Some(New(b, b.data[..]));
        OnlyAdded(b);
      } else {
        assert created == old(created);
        NoneChanged();
      }
    }

    method RegisterConnection(fd: nat, ssl: nat) returns (ghost n: Option<New<Ptr>>)
      requires Valid() && fd < |conns|
      modifies this`conns, this`created, pool
      ensures NewOk(old(pool.impl), old(Heap()), pool.size, n)
      ensures var b := Granted(old(pool.impl), n);
              Valid() && Owned(fd) && conns[fd].buffer == Some(b)
              && View() == TlsModel.RegisterConnection(old(View()), fd, ssl, b)
      ensures Heap() == Supplied(old(pool.impl), old(Heap()), n)
      ensures fresh(created - old(created)) && forall c: Ptr :: c in created - old(created) ==> fresh(c.data)
    {
      hide Valid, Heap;
      var c := conns[fd];
      if c.ssl.None? {
        c := c.(ssl := Some(ssl));
      }
      c := c.(descriptor := fd);
      var b;
      b, n := AllocateBuffer();
      SetConn(fd, c.(buffer := Some(b), op := NoTlsOp));
    }

    // ---- Submissions ----

    ghost method Launch(fd: nat, op: TlsOp)
      requires Parallel(View()) && fd < |flights|
      modifies this`flights
      ensures flights == old(flights)[fd := old(flights)[fd] + [Submission(old(View()), fd, op)]]
    {
      flights := flights[fd := flights[fd] + [Submission(View(), fd, op)]];
    }

    method SubmitPollIn(fd: nat, sqe: bool)
      requires Valid() && fd < |conns|
      modifies this`conns, this`flights
      ensures Valid() && View() == Arm(old(View()), fd, PollIn, sqe)
    {
      if !sqe { return; }
      Launch(fd, PollIn);
      conns := conns[fd := conns[fd].(op := PollIn)];
    }

    method SubmitPollOut(fd: nat, sqe: bool)
      requires Valid() && fd < |conns|
      modifies this`conns, this`flights
      ensures Valid() && View() == Arm(old(View()), fd, PollOut, sqe)
    {
      if !sqe { return; }
      Launch(fd, PollOut);
      conns := conns[fd := conns[fd].(op := PollOut)];
    }

    /** Goes through if the buffer is not full. */
    method SubmitRecvKtls(fd: nat, sqe: bool) returns (armed: bool)
      requires Valid() && fd < |conns|
      modifies this`conns, this`flights
      ensures Valid() && View() == Arm(old(View()), fd, RecvKtls, armed)
      ensures var b := old(conns)[fd].buffer; armed <==> b.Some? && Armed(true, b.value.Value(), Reading, sqe)
    {
      if conns[fd].buffer.None? { return false; }
      FreeRegionIsFirstChunk(conns[fd].buffer.value.Value());
      var off, len := conns[fd].buffer.value.GetFreeRegion();
      if len == 0 || !sqe { return false; }
      Launch(fd, RecvKtls);
      conns := conns[fd := conns[fd].(op := RecvKtls)];
      return true;
    }

    /** Goes through if the buffer is neither empty nor full. */
    method SubmitSendKtls(fd: nat, sqe: bool) returns (armed: bool)
      requires Valid() && fd < |conns|
      modifies this`conns, this`flights
      ensures Valid() && View() == Arm(old(View()), fd, SendKtls, armed)
      ensures var b := old(conns)[fd].buffer; armed <==> b.Some? && Armed(true, b.value.Value(), Writing, sqe)
    {
      if conns[fd].buffer.None? { return false; }
      UsedRegionIsFirstChunk(conns[fd].buffer.value.Value());
      var off, len := conns[fd].buffer.value.GetUsedRegion();
      if len == 0 || !sqe { return false; }
      Launch(fd, SendKtls);
      conns := conns[fd := conns[fd].(op := SendKtls)];
      return true;
    }

    method ApplyState(fd: nat, next: ElState, sqe: bool) returns (armed: bool)
      requires Valid() && Owned(fd) && conns[fd].buffer.Some?
      modifies this, pool, created
      ensures Valid() && created == old(created)
      ensures View() == TlsModel.ApplyState(old(View()), fd, next, armed)
      ensures armed <==> Armed(old(conns)[fd].ktls, old(conns[fd].buffer.value.Value()), next, sqe)
      ensures Heap() == if next == Die then Emptied(old(conns)[fd].buffer, old(Heap())) else old(Heap())
      ensures next != Die ==> Owned(fd) && conns[fd].state == next
                              && conns[fd].ktls == old(conns)[fd].ktls && conns[fd].buffer == old(conns)[fd].buffer
    {
      hide HeapOk, PoolOk, Heap, TlsModel.RemoveConnection;
      armed := false;
      if next == Die {
        RemoveConnection(fd);
        return;
      }
      SetConn(fd, conns[fd].(state := next));
      if next == Reading {
        if conns[fd].ktls {
          armed := SubmitRecvKtls(fd, sqe);
        } else {
          SubmitPollIn(fd, sqe);
          armed := sqe;
        }
      } else if next == Writing {
        if conns[fd].ktls {
          armed := SubmitSendKtls(fd, sqe);
        } else {
          SubmitPollOut(fd, sqe);
          armed := sqe;
        }
      }
    }

    // ---- Transfers ----

    /** A callback runs on a connection's buffer. */
    method Invoke(fd: nat, c: TlsModel.Call, ops: seq<BufferOp>)
      requires Valid() && Owned(fd) && conns[fd].buffer.Some?
      modifies this`calls, this`connects, conns[fd].buffer.value, conns[fd].buffer.value.data
      ensures Valid() && Owned(fd) && View() == Called(old(View()), fd, c)
      ensures var b := conns[fd].buffer.value;
              b.Value() == Used(old(b.Value()), ops) && Heap() == old(Heap())[b := b.Value()]
    {
      hide Used, Heap;
      Call(fd, c);
      RunCallback(conns[fd].buffer.value, ops);
      InHeap(conns[fd].buffer.value);
    }

    /** The state that the callback returns is applied. */
    method Answer(fd: nat, c: TlsModel.Call, ops: seq<BufferOp>, next: ElState, sqe: bool) returns (armed: bool)
      requires Valid() && Owned(fd) && conns[fd].buffer.Some?
      modifies this, pool, created, conns[fd].buffer.value.data
      ensures Valid() && created == old(created)
      ensures View() == TlsModel.ApplyState(Called(old(View()), fd, c), fd, next, armed)
      ensures var b := old(conns)[fd].buffer.value;
              var a := React(old(conns)[fd].ktls, old(b.Value()), ops, next, sqe);
              armed == a.armed && Heap() == old(Heap())[b := a.ring]
    {
      hide PoolOk, Heap, Used, Armed, TlsModel.ApplyState;
      ghost var b := conns[fd].buffer.value;
      ghost var u := Used(b.Value(), ops);
      PutTwice(Heap(), b, u, u.Reset());
      Invoke(fd, c, ops);
      InHeap(b);
      armed := ApplyState(fd, next, sqe);
    }

    method AttemptRead(fd: nat, io: Io) returns (t: Transfer)
      requires Valid() && Owned(fd) && conns[fd].buffer.Some?
      modifies conns[fd].buffer.value, conns[fd].buffer.value.data
      ensures Valid()
      ensures var b := conns[fd].buffer.value;
              && t == ReadTry(conns[fd].ktls, old(b.Value()), io)
              && Heap() == old(Heap())[b := Found(conns[fd].ktls, old(b.Value()), io)]
    {
      var b := conns[fd].buffer.value;
      if conns[fd].ktls {
        var empty := b.IsEmpty();
        t := Transfer(!empty, false, false, false, io.next, false);
      } else {
        var e := Receive(b, io.answers, io.plain);
        t := Transfer(e.moved > 0, e.error, e.want, false, io.next, false);
      }
    }

    method HandleRead(fd: nat, io: Io) returns (t: Transfer)
      requires Valid() && Owned(fd)
      modifies this, pool, created, set b: Ptr | b in created :: b.data
      ensures Valid() && created == old(created) && View() == TlsModel.HandleRead(old(View()), fd, t)
      ensures Effect(t, Heap()) == ReadEffect(old(conns)[fd], old(Heap()), io)
    {
      hide HeapOk, PoolOk, Heap, React, Found, ReadRest, TlsModel.ApplyState, TlsModel.RemoveConnection;
      t := Nothing(io);
      if conns[fd].state != Reading { return; }
      if conns[fd].buffer.None? {
        crashed := true;
        return;
      }
      ghost var b, k := conns[fd].buffer.value, conns[fd].ktls;
      InHeap(b);
      PutTwice(Heap(), b, Found(k, b.Value(), io), ReadDeal(k, b.Value(), io).ring);
      t := AttemptRead(fd, io);
      InHeap(b);
      if t.got && !t.error {
        var armed := Answer(fd, OnRead, io.ops, io.next, io.sqe);
        t := t.(armed := armed);
      }
      if t.error {
        RemoveConnection(fd);
      }
      if t.want && !t.got && !t.error {
        SubmitPollIn(fd, io.sqe);
        t := t.(armed := io.sqe);
      }
    }

    method AttemptWrite(fd: nat, io: Io) returns (t: Transfer)
      requires Valid() && Owned(fd) && conns[fd].buffer.Some?
      modifies conns[fd].buffer.value
      ensures Valid()
      ensures var b := conns[fd].buffer.value;
              && t == WriteTry(old(b.Value()), io)
              && Heap() == old(Heap())[b := Left(old(b.Value()), io)]
    {
      var b := conns[fd].buffer.value;
      var error, want, e := Transmit(b, io.answers);
      InHeap(b);
      var empty := b.IsEmpty();
      t := Transfer(false, error, want, empty, io.next, false);
    }

    method HandleWrite(fd: nat, io: Io) returns (t: Transfer)
      requires Valid() && Owned(fd)
      modifies this, pool, created, set b: Ptr | b in created :: b.data
      ensures Valid() && created == old(created) && View() == TlsModel.HandleWrite(old(View()), fd, t)
      ensures Effect(t, Heap()) == WriteEffect(old(conns)[fd], old(Heap()), io)
    {
      hide HeapOk, PoolOk, Heap, React, Left, WriteRest, TlsModel.ApplyState, TlsModel.RemoveConnection;
      t := Nothing(io);
      if conns[fd].state != Writing { return; }
      if conns[fd].buffer.None? {
        crashed := true;
        return;
      }
      ghost var b := conns[fd].buffer.value;
      InHeap(b);
      PutTwice(Heap(), b, Left(b.Value(), io), WriteDeal(conns[fd].ktls, b.Value(), io).ring);
      t := AttemptWrite(fd, io);
      InHeap(b);
      var armed := false;
      if conns[fd].ktls {
        if !t.error && t.drained {
          armed := Answer(fd, OnWrite, io.ops, io.next, io.sqe);
        }
        if t.error {
          armed := Answer(fd, OnError, io.ops, Die, io.sqe);
        }
      } else if t.error {
        armed := Answer(fd, OnError, io.ops, io.next, io.sqe);
      } else if t.drained {
        armed := Answer(fd, OnWrite, io.ops, io.next, io.sqe);
      } else if t.want {
        SubmitPollOut(fd, io.sqe);
        armed := io.sqe;
      }
      t := t.(armed := armed);
    }

    // ---- Handshakes ----

    /** on_connect runs on a new connection. */
    method Announce(fd: nat, ktls: bool, ops: seq<BufferOp>)
      requires Valid() && Owned(fd) && conns[fd].buffer.Some?
      modifies this`conns, this`calls, this`connects, conns[fd].buffer.value, conns[fd].buffer.value.data
      ensures Valid() && Owned(fd) && View() == Greeted(old(View()), fd, ktls)
      ensures var b := old(conns)[fd].buffer.value;
              b.Value() == Used(old(b.Value()), ops) && Heap() == old(Heap())[b := b.Value()]
    {
      hide Heap, HeapOk, PoolOk, Used;
      SetConn(fd, conns[fd].(ktls := ktls));
      Invoke(fd, OnConnect, ops);
    }

    /** on_connect's answer is applied, and a first read follows. */
    method Greet(fd: nat, g: Greeting) returns (ghost w: Welcome<Ptr>)
      requires Valid() && Owned(fd) && conns[fd].buffer.Some?
      modifies this, pool, created, set b: Ptr | b in created :: b.data
      ensures Valid() && created == old(created)
      ensures View() == AfterConnect(Greeted(old(View()), fd, g.ktls), fd, w)
      ensures var b := old(conns)[fd].buffer.value;
              b in old(Heap()) && old(Heap())[b].Valid() && Start(w, Heap()) == GreetEffect(g, b, old(Heap()))
    {
      hide HeapOk, PoolOk, Heap, Used, ReadDeal, TlsModel.ApplyState, TlsModel.RemoveConnection, TlsModel.HandleRead;
      ghost var b := conns[fd].buffer.value;
      InHeap(b);
      ghost var u := Used(b.Value(), g.ops);
      PutTwice(Heap(), b, u, GreetEffect(g, b, Heap()).rings[b]);
      w := Welcome(g.ktls, b, g.next, false, Nothing(g.first));
      Announce(fd, g.ktls, g.ops);
      InHeap(b);
      if g.next == Die {
        RemoveConnection(fd);
      } else {
        var armed := ApplyState(fd, g.next, g.sqe);
        var t := HandleRead(fd, g.first);
        w := w.(armed := armed, first := t);
      }
    }

    method Complete(fd: nat, ssl: nat, g: Greeting) returns (ghost w: Welcome<Ptr>, ghost n: Option<New<Ptr>>)
      requires Valid() && fd < |conns|
      modifies this, pool, created, set b: Ptr | b in created :: b.data
      ensures Valid() && NewBlock(old(View()), w) && View() == TlsModel.Complete(old(View()), fd, ssl, w)
      ensures NewOk(old(pool.impl), old(Heap()), pool.size, n) && Provided(old(pool.impl), old(Heap()), n)
      ensures Met(Done(w), Heap()) == ShakeEffect(old(pool.impl), old(Heap()), ShakeDone(g), n)
    {
      n := RegisterConnection(fd, ssl);
      w := Greet(fd, g);
    }

    /** Makes room in the table for a descriptor. */
    method GrowTable(fd: nat)
      requires Valid()
      modifies this`conns, this`calls, this`flights, this`epochs
      ensures Valid() && View() == Grow(old(View()), fd)
    {
      if fd >= |conns| {
        var n := fd + 1 - |conns|;
        conns := conns + seq(n, i => EmptyRecord());
        calls, flights := calls + seq(n, i => []), flights + seq(n, i => []);
        epochs := epochs + seq(n, i => 0);
      }
    }

    ghost method AddHandle(fd: nat, ssl: nat)
      requires Valid() && fd < |conns|
      modifies this`handles, this`calls, this`epochs, this`open
      ensures Valid() && View() == Accepted(old(View()), fd, ssl)
    {
      handles, calls, open := handles + {ssl}, calls[fd := []], open + {fd};
      epochs := epochs[fd := epochs[fd] + 1];
    }

    method StartDone(fd: nat, ssl: nat, g: Greeting) returns (ghost w: Welcome<Ptr>, ghost n: Option<New<Ptr>>)
      requires Valid() && fd < |conns|
      modifies this, pool, created, set b: Ptr | b in created :: b.data
      ensures Valid() && NewBlock(old(View()), w)
      ensures View() == TlsModel.Complete(Shaken(Accepted(old(View()), fd, ssl)), fd, ssl, w)
      ensures NewOk(old(pool.impl), old(Heap()), pool.size, n) && Provided(old(pool.impl), old(Heap()), n)
      ensures Met(Done(w), Heap()) == ShakeEffect(old(pool.impl), old(Heap()), ShakeDone(g), n)
    {
      hide HeapOk, PoolOk, Heap, Provided, NewOk, TlsModel.Complete, ShakeEffect;
      ghost var s1 := Shaken(Accepted(View(), fd, ssl));
      AddHandle(fd, ssl);
      handshakes := handshakes + 1;
      assert View() == s1;
      w, n := Complete(fd, ssl, g);
    }

    method StartWaiting(fd: nat, ssl: nat, sqe: bool)
      requires Valid() && fd < |conns|
      modifies this`conns, this`pending, this`handles, this`calls, this`epochs, this`open, this`flights
      ensures Valid() && View() == Arm(Waiting(old(View()), fd, ssl), fd, PollIn, sqe)
    {
      AddHandle(fd, ssl);
      pending := pending + {fd};
      conns := conns[fd := conns[fd].(ssl := Some(ssl), descriptor := fd, op := HandshakePoll)];
      SubmitPollIn(fd, sqe);
    }

    method Refuse(fd: nat, ssl: nat)
      requires Valid() && fd < |conns|
      modifies this`handles, this`calls, this`epochs, this`open, this`freed, this`stray
      ensures Valid()
      ensures var s1 := Accepted(old(View()), fd, ssl); View() == Close(s1.(freed := s1.freed + [ssl]), fd)
    {
      AddHandle(fd, ssl);
      FreeSsl(ssl);
      CloseDescriptor(fd);
    }

    method StartHandshake(fd: nat, ssl: nat, h: Shake, sqe: bool)
      returns (ghost m: Handshake<Ptr>, ghost n: Option<New<Ptr>>)
      requires Valid() && fd < |conns|
      modifies this, pool, created, set b: Ptr | b in created :: b.data
      ensures Valid() && NewIfDone(old(View()), m) && View() == TlsModel.StartHandshake(old(View()), fd, ssl, m, sqe)
      ensures h.ShakeDone? ==>
                NewOk(old(pool.impl), old(Heap()), pool.size, n) && Provided(old(pool.impl), old(Heap()), n)
      ensures Met(m, Heap()) == ShakeEffect(old(pool.impl), old(Heap()), h, n)
    {
      hide Valid, Heap, Provided, NewOk, TlsModel.Complete, Arm, GreetEffect;
      n := None;
      match h
      case ShakeDone(g) =>
        ghost var w;
        w, n := StartDone(fd, ssl, g);
        m := Handshake.Done(w);
      case ShakeWants =>
        m := WantRead;
        StartWaiting(fd, ssl, sqe);
      case ShakeFails =>
        m := Failed;
        Refuse(fd, ssl);
    }

    /** accept gave `fd` and SSL_new gave `ssl`. */
    method HandleAccept(fd: nat, ssl: nat, h: Shake, sqe: bool) returns (ghost x: Input<Ptr>)
      requires Valid() && Inv(View()) && !crashed && fd !in open && ssl !in handles
      modifies this, pool, created, set b: Ptr | b in created :: b.data
      ensures x == Accepts(fd, ssl, h, sqe, x.given)
      ensures MachineOk(old(Whole())) && MayGive(old(Whole()), x) && Whole() == Step(old(Whole()), x)
      ensures Valid() && Inv(View()) && !crashed
    {
      hide Valid, Heap, Provided, NewOk, TlsModel.StartHandshake, ShakeEffect, Inv;
      ghost var s := Whole();
      WholeOk();
      InvWellFormed(View());
      GrowTable(fd);
      ghost var m, n := StartHandshake(fd, ssl, h, sqe);
      x := Accepts(fd, ssl, h, sqe, n);
      StepIs(s, x);
      StepInv(s.tls, OutcomeOf(s, x).e);
    }

    method RetryDone(fd: nat, g: Greeting) returns (ghost w: Welcome<Ptr>, ghost n: Option<New<Ptr>>)
      requires Valid() && fd < |conns| && conns[fd].ssl.Some?
      modifies this, pool, created, set b: Ptr | b in created :: b.data
      ensures Valid() && NewBlock(old(View()), w)
      ensures var s := old(View());
              View() == TlsModel.Complete(Shaken(s.(pending := s.pending - {fd})), fd, s.conns[fd].ssl.value, w)
      ensures NewOk(old(pool.impl), old(Heap()), pool.size, n) && Provided(old(pool.impl), old(Heap()), n)
      ensures Met(Done(w), Heap()) == ShakeEffect(old(pool.impl), old(Heap()), ShakeDone(g), n)
    {
      hide HeapOk, PoolOk, Heap, Provided, NewOk, TlsModel.Complete, ShakeEffect;
      ghost var s1 := Shaken(View().(pending := pending - {fd}));
      pending := pending - {fd};
      handshakes := handshakes + 1;
      assert View() == s1;
      w, n := Complete(fd, conns[fd].ssl.value, g);
    }

    method RetryWaits(fd: nat, sqe: bool)
      requires Valid() && fd < |conns|
      modifies this`conns, this`flights
      ensures Valid() && View() == Arm(SetOp(old(View()), fd, HandshakePoll), fd, PollIn, sqe)
    {
      conns := conns[fd := conns[fd].(op := HandshakePoll)];
      SubmitPollIn(fd, sqe);
    }

    method RetryFails(fd: nat)
      requires Valid() && fd < |conns| && conns[fd].ssl.Some?
      modifies this`conns, this`pending, this`freed, this`open, this`stray
      ensures Valid()
      ensures var s := old(View());
              View() == Close(SetRecord(s, fd, s.conns[fd].(ssl := None)).(
                                freed := s.freed + [s.conns[fd].ssl.value], pending := s.pending - {fd}), fd)
    {
      FreeSsl(conns[fd].ssl.value);
      conns := conns[fd := conns[fd].(ssl := None)];
      pending := pending - {fd};
      CloseDescriptor(fd);
    }

    method RetryHandshake(fd: nat, h: Shake, sqe: bool)
      returns (ghost m: Handshake<Ptr>, ghost n: Option<New<Ptr>>)
      requires Valid() && fd < |conns| && conns[fd].ssl.Some?
      modifies this, pool, created, set b: Ptr | b in created :: b.data
      ensures Valid() && NewIfDone(old(View()), m) && View() == TlsModel.RetryHandshake(old(View()), fd, m, sqe)
      ensures h.ShakeDone? ==>
                NewOk(old(pool.impl), old(Heap()), pool.size, n) && Provided(old(pool.impl), old(Heap()), n)
      ensures Met(m, Heap()) == ShakeEffect(old(pool.impl), old(Heap()), h, n)
    {
      hide Valid, Heap, Provided, NewOk, TlsModel.Complete, Arm, GreetEffect;
      n := None;
      match h
      case ShakeDone(g) =>
        ghost var w;
        w, n := RetryDone(fd, g);
        m := Handshake.Done(w);
      case ShakeWants =>
        m := WantRead;
        RetryWaits(fd, sqe);
      case ShakeFails =>
        m := Failed;
        RetryFails(fd);
    }

    // ---- Completions ----

    /** The kernel stored `res` bytes in the free region it was lent: the operation is over. */
    method TakeReceived(fd: nat, res: nat)
      requires Valid() && Owned(fd) && conns[fd].buffer.Some? && res <= conns[fd].buffer.value.Value().FreeSpace()
      modifies this`conns, conns[fd].buffer.value
      ensures Valid() && Owned(fd) && View() == SetOp(old(View()), fd, NoTlsOp)
      ensures var b := old(conns)[fd].buffer.value; Heap() == old(Heap())[b := old(b.Value()).AdvanceTail(res)]
    {
      hide Heap;
      var b := conns[fd].buffer.value;
      b.AdvanceTail(res);
      OnlyChanged(b);
      SetConn(fd, conns[fd].(op := NoTlsOp));
    }

    /** The kernel sent `res` bytes of the used region it was lent. */
    method TakeSent(fd: nat, res: nat) returns (empty: bool)
      requires Valid() && Owned(fd) && conns[fd].buffer.Some? && res <= conns[fd].buffer.value.Value().Count()
      modifies this`conns, conns[fd].buffer.value
      ensures Valid() && Owned(fd) && View() == SetOp(old(View()), fd, NoTlsOp)
      ensures var b := old(conns)[fd].buffer.value; Heap() == old(Heap())[b := old(b.Value()).AdvanceHead(res)]
      ensures empty <==> res == old(conns[fd].buffer.value.Value().Count())
    {
      hide Heap;
      var b := conns[fd].buffer.value;
      AdvanceHeadContents(b.Value(), res);
      b.AdvanceHead(res);
      OnlyChanged(b);
      empty := b.IsEmpty();
      SetConn(fd, conns[fd].(op := NoTlsOp));
    }

    method KtlsReceived(fd: nat, res: nat, io: Io) returns (t: Transfer)
      requires Valid() && Owned(fd) && conns[fd].op == RecvKtls && res > 0
      requires Backed(conns[fd].buffer, Heap()) && Fits(conns[fd], Heap(), RecvDone, res)
      modifies this, pool, created, set b: Ptr | b in created :: b.data
      ensures Valid() && created == old(created) && View() == TlsModel.KtlsReceived(old(View()), fd, t)
      ensures Effect(t, Heap()) == KtlsEffect(old(conns)[fd], old(Heap()), RecvDone, res, io)
    {
      hide HeapOk, PoolOk, Heap, React, TlsModel.ApplyState;
      t := Nothing(io);
      if conns[fd].buffer.None? {
        crashed := true;
        return;
      }
      ghost var b := conns[fd].buffer.value;
      InHeap(b);
      PutTwice(Heap(), b, b.Value().AdvanceTail(res), ReceivedDeal(conns[fd].ktls, b.Value(), res, io).ring);
      TakeReceived(fd, res);
      InHeap(b);
      var armed := Answer(fd, OnRead, io.ops, io.next, io.sqe);
      t := t.(got := true, armed := armed);
    }

    /** on_write runs when all is sent; otherwise the rest is submitted. */
    method KtlsSent(fd: nat, res: nat, io: Io) returns (t: Transfer)
      requires Valid() && Owned(fd) && conns[fd].op == SendKtls && res > 0
      requires Backed(conns[fd].buffer, Heap()) && Fits(conns[fd], Heap(), SendDone, res)
      modifies this, pool, created, set b: Ptr | b in created :: b.data
      ensures Valid() && created == old(created) && View() == TlsModel.KtlsSent(old(View()), fd, t)
      ensures Effect(t, Heap()) == KtlsEffect(old(conns)[fd], old(Heap()), SendDone, res, io)
    {
      hide HeapOk, PoolOk, Heap, React, TlsModel.ApplyState;
      t := Nothing(io);
      if conns[fd].buffer.None? {
        crashed := true;
        return;
      }
      ghost var b := conns[fd].buffer.value;
      InHeap(b);
      PutTwice(Heap(), b, b.Value().AdvanceHead(res), SentDeal(conns[fd].ktls, b.Value(), res, io).ring);
      var empty := TakeSent(fd, res);
      InHeap(b);
      var armed;
      if empty {
        armed := Answer(fd, OnWrite, io.ops, io.next, io.sqe);
      } else {
        armed := SubmitSendKtls(fd, io.sqe);
      }
      t := t.(drained := empty, armed := armed);
    }

    /** What a completion of a connection that is not pending leads to; `code` is its kind. */
    method Dispatch(fd: nat, code: nat, res: int, again: bool, io: Io, ghost kind: Kind) returns (t: Transfer)
      requires Valid() && Owned(fd) && fd !in pending && (res >= 0 || again) && code == KindCode(kind)
      requires Backed(conns[fd].buffer, Heap()) && Fits(conns[fd], Heap(), kind, res)
      modifies this, pool, created, set b: Ptr | b in created :: b.data
      ensures Valid() && created == old(created)
      ensures View() == Completion(old(View()), fd, kind, res, again, WantRead, t)
      ensures Effect(t, Heap()) == DispatchEffect(old(conns)[fd], old(Heap()), kind, res, io)
    {
      hide Valid, Heap, TlsModel.KtlsReceived, TlsModel.KtlsSent, TlsModel.HandleRead, TlsModel.HandleWrite;
      hide KtlsEffect, ReadEffect, WriteEffect, Fits, Backed;
      t := Nothing(io);
      if code == RECV {
        if res > 0 && conns[fd].op == RecvKtls {
          t := KtlsReceived(fd, res, io);
        }
      } else if code == SEND {
        if res > 0 && conns[fd].op == SendKtls {
          t := KtlsSent(fd, res, io);
        }
      } else if code == POLL_IN {
        if conns[fd].op == PollIn {
          t := HandleRead(fd, io);
        }
      } else if code == POLL_OUT {
        if conns[fd].op == PollOut {
          t := HandleWrite(fd, io);
        }
      }
    }

    /** Records own their buffers. */
    lemma OwnersOwn()
      requires OwnersOk(View())
      ensures forall fd :: 0 <= fd < |conns| ==> Owned(fd)
    {
      forall fd | 0 <= fd < |conns|
        ensures Owned(fd)
      {
        assert Buffers(conns)[fd] == conns[fd].buffer;
      }
    }

    /** The operation is no longer outstanding. */
    ghost method Land(fd: nat, i: nat)
      requires Valid() && fd < |flights| && i < |flights[fd]|
      modifies this`flights
      ensures Valid() && View() == Landed(old(View()), fd, i)
    {
      flights := flights[fd := Without(flights[fd], i)];
    }

    /** A completion of `fd`, whatever it is of. */
    method Finish(fd: nat, code: nat, res: int, again: bool, h: Shake, io: Io, ghost kind: Kind)
      returns (ghost m: Handshake<Ptr>, ghost t: Transfer, ghost n: Option<New<Ptr>>)
      requires Valid() && Inv(View()) && fd < |conns| && code == KindCode(kind)
      requires Backed(conns[fd].buffer, Heap()) && Fits(conns[fd], Heap(), kind, res)
      modifies this, pool, created, set b: Ptr | b in created :: b.data
      ensures Valid() && (fd in old(pending) ==> old(conns)[fd].ssl.Some?)
      ensures View() == Completion(old(View()), fd, kind, res, again, m, t)
      ensures fd in old(pending) && (res >= 0 || again) && h.ShakeDone? ==>
                NewOk(old(pool.impl), old(Heap()), pool.size, n) && Provided(old(pool.impl), old(Heap()), n)
      ensures Result(m, t, Heap()) == FinishEffect(old(pool.impl), old(conns)[fd], fd in old(pending), old(Heap()),
                                                   kind, res, again, h, io, n)
    {
      hide Valid, Heap, Provided, NewOk, ShakeEffect, DispatchEffect, Fits, Backed, Emptied;
      hide TlsModel.RetryHandshake, TlsModel.RemoveConnection, TlsModel.KtlsReceived, TlsModel.KtlsSent;
      OwnersOwn();
      InvWellFormed(View());
      m, t, n := WantRead, Nothing(io).(armed := io.sqe), None;
      if res < 0 && !again {
        RemoveConnection(fd);
      } else if fd in pending {
        m, n := RetryHandshake(fd, h, io.sqe);
      } else {
        t := Dispatch(fd, code, res, again, io, kind);
      }
    }

    /** One completion entry: its tag, its result, and whether a negative one is EAGAIN. It is that
        of the i-th outstanding operation of `fd`. */
    method ProcessOne(tag: nat, res: int, again: bool, h: Shake, io: Io, ghost fd: nat, ghost i: nat)
      returns (ghost x: Input<Ptr>)
      requires Valid() && Inv(View()) && !crashed && fd < FD_LIMIT && fd < |conns| && i < |flights[fd]|
      requires tag == TagData(fd, KindCode(flights[fd][i].kind))
      requires Backed(conns[fd].buffer, Heap()) && Fits(conns[fd], Heap(), flights[fd][i].kind, res)
      modifies this, pool, created, set b: Ptr | b in created :: b.data
      ensures x == Completes(fd, i, res, again, h, io, x.given)
      ensures MachineOk(old(Whole())) && MayGive(old(Whole()), x) && Whole() == Step(old(Whole()), x)
      ensures Valid() && Inv(View())
      ensures crashed <==> NullUse(old(View()), fd, old(flights)[fd][i].kind, res, again)
    {
      hide HeapOk, PoolOk, Heap, Backed, Fits, FinishEffect, Completion, RecordsOk, OwnersOk, Provided, NewOk;
      ghost var s, kind := Whole(), flights[fd][i].kind;
      WholeOk();
      InvWellFormed(View());
      DecodeData(fd, KindCode(kind));
      FlightsInv(s.tls, Landed(s.tls, fd, i).flights);
      Land(fd, i);
      var d := FdOf(tag);
      if 0 <= d < |conns| {
        ghost var m, t, n := Finish(d, KindOf(tag), res, again, h, io, kind);
        x := Completes(fd, i, res, again, h, io, n);
      } else {
        assert false;
      }
      StepIs(s, x);
      StepInv(s.tls, OutcomeOf(s, x).e);
    }

    // ---- The end ----

    /** One record gives up its handle and its buffer. */
    method Clear(n: nat, ghost s: Tls<Ptr>)
      requires Valid() && OwnersOk(s) && n < |conns| == |s.conns| && View() == TlsModel.Released(s, n)
      modifies this`conns, this`freed, pool, created
      ensures Valid() && |conns| == |s.conns| && created == old(created) && View() == TlsModel.Released(s, n + 1)
    {
      ReleasedKeeps(s, n);
      OwnersOwn();
      GiveUp(n);
    }

    /** The loop over the records when `run` ends. */
    method ReleaseAll()
      requires Valid() && Inv(View())
      modifies this`conns, this`freed, pool, created
      ensures Valid() && |conns| == |old(conns)| && View() == TlsModel.Released(old(View()), |conns|)
    {
      ghost var s := View();
      var n := 0;
      while n < |conns|
        invariant n <= |conns| == |s.conns| && Valid() && View() == TlsModel.Released(s, n) && created == old(created)
      {
        Clear(n, s);
        n := n + 1;
      }
    }

    method Cleanup()
      requires Valid() && Inv(View())
      modifies this`conns, this`freed, this`pending, pool, created
      ensures Valid() && View() == Shutdown(old(View()))
    {
      ReleaseAll();
      pending := {};
    }

    /** Cleanup and the destructor: every handle is freed and every buffer deleted, exactly once. */
    method Destroy() returns (deleted: seq<Ptr>)
      requires Valid() && Inv(View())
      modifies this`conns, this`freed, this`pending, pool, created
      ensures forall b: Ptr :: b in created <==> b in deleted
      ensures forall i, j :: 0 <= i < j < |deleted| ==> deleted[i] != deleted[j]
      ensures forall h :: h in handles <==> h in freed
      ensures forall i, j :: 0 <= i < j < |freed| ==> freed[i] != freed[j]
      ensures pool.impl == [] && pending == {} && |conns| == |old(conns)|
      ensures forall fd :: 0 <= fd < |conns| ==> conns[fd] == old(conns)[fd].(ssl := None, buffer := None)
    {
      ghost var s := View();
      Cleanup();
      ShutdownFreesAll(s);
      deleted := pool.Drain();
    }
  }
}
