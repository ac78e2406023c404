/** The loops around SSL_read and SSL_write offer by offer: what the TLS library answers, what is read or
    sent, and which flags the handlers are left with. Buffers are numbers and byte strings here. */
module SslLoops {
  import opened Bits

  /** One answer of SSL_read or SSL_write: one byte more than `more`, as far as the request goes;
      a wait for the socket; the end of the stream; any other failure. */
  datatype SslAnswer = Moves(more: nat) | Wants | Ends | Breaks

  // What each call answers, and the bytes the peer sends, in order.
  type Answers = nat -> SslAnswer
  type Plain = nat -> byte

  function Slice(plain: Plain, from: nat, n: nat): (d: seq<byte>)
    ensures |d| == n
  {
    seq(n, i requires 0 <= i => plain(from + i))
  }

  lemma SliceTwice(plain: Plain, p: nat, m: nat, n: nat)
    ensures Slice(plain, p, m) + Slice(plain, p + m, n) == Slice(plain, p, m + n)
  {
  }

  /** How far the first chunk reaches once `n` bytes of it are used. */
  function NextEdge(edge: nat, n: nat, size: nat): nat
    requires n <= edge
  {
    if n == edge then size else edge - n
  }

  // ---- Reading ----

  // What a read loop leaves: the calls made, the bytes read, and the handler's flags.
  datatype ReadEnd = ReadEnd(calls: nat, moved: nat, error: bool, want: bool)

  /** How many bytes SSL_read moves into `room` bytes. */
  function Moving(a: SslAnswer, room: nat): (n: nat)
    ensures n <= room
  {
    if a.Moves? then Min(a.more + 1, room) else 0
  }

  /** The loop offer by offer, from the k-th call on: `room` bytes are free, `edge` of them up to the
      end of the array. A turn ends at an offer that is not filled, or with no room; the loop ends
      with a turn that read nothing. `any` says whether this turn has read something. */
  ghost function ReadFrom(room: nat, edge: nat, size: nat, answers: Answers, k: nat, any: bool): (e: ReadEnd)
    requires 0 < edge <= size
    ensures e.calls >= k && e.moved <= room
    decreases room, if any then 1 else 0
  {
    if room == 0 then ReadEnd(k, 0, false, false)
    else
      var a, chunk := answers(k), Min(room, edge);
      var n := Moving(a, chunk);
      if n == 0 && !any then ReadEnd(k + 1, 0, a.Breaks?, a.Wants?)
      else
        var rest := ReadFrom(room - n, NextEdge(edge, n, size), size, answers, k + 1, n == chunk);
        rest.(moved := n + rest.moved, error := a.Breaks? || rest.error)
  }

  /** Some call of `n`, from the k-th on, moved something; or failed. */
  ghost predicate Moved(answers: Answers, k: nat, n: nat) { exists i :: k <= i < k + n && answers(i).Moves? }

  /** A write fails at the end of the stream as well. */
  predicate Fails(a: SslAnswer, writing: bool) { a.Breaks? || (writing && a.Ends?) }

  predicate AnyFails(answers: Answers, k: nat, n: nat, writing: bool) {
    exists i :: k <= i < k + n && Fails(answers(i), writing)
  }

  /** Whatever the answers: there is an error exactly if a call failed, and bytes were read exactly
      if one moved some; the loop ends with no room or after an answer that moved nothing, and
      wants the socket exactly if that answer did. */
  lemma {:induction false} ReadFromMeans(room: nat, edge: nat, size: nat, answers: Answers, k: nat, any: bool)
    requires 0 < edge <= size
    ensures var e := ReadFrom(room, edge, size, answers, k, any);
            && (e.moved > 0 <==> Moved(answers, k, e.calls - k))
            && (e.error <==> AnyFails(answers, k, e.calls - k, false))
            && (e.moved == room || (e.calls > k && !answers(e.calls - 1).Moves?))
            && (e.want <==> e.moved < room && answers(e.calls - 1).Wants?)
            && (e.calls == k <==> room == 0)
    decreases room, if any then 1 else 0
  {
    var a, chunk := answers(k), Min(room, edge);
    var n := Moving(a, chunk);
    if room > 0 && (n > 0 || any) {
      ReadFromMeans(room - n, NextEdge(edge, n, size), size, answers, k + 1, n == chunk);
    }
  }

  /** A first answer that moves nothing is the last. */
  lemma {:induction false} FirstStops(room: nat, edge: nat, size: nat, answers: Answers, k: nat)
    requires 0 < edge <= size && room > 0 && !answers(k).Moves?
    ensures ReadFrom(room, edge, size, answers, k, false).calls == k + 1
  {
  }

  /** What SSL_read stores in `room` bytes when `p` bytes were read before. */
  function Given(a: SslAnswer, plain: Plain, p: nat, room: nat): (d: seq<byte>)
    ensures |d| == Moving(a, room)
  {
    Slice(plain, p, Moving(a, room))
  }

  /** The closure of handle_read when `k` calls were made and `p` bytes read before; within one
      turn it is called a second time only after it read something. */
  function Reader(answers: Answers, k: nat, plain: Plain, p: nat): ((nat, nat) -> seq<byte>) {
    (done: nat, room: nat) => Given(answers(if done == 0 then k else k + 1), plain, p + done, room)
  }

  /** The end of the array after `n` bytes, seen from the next one. */
  function EdgeAfter(edge: nat, n: nat, size: nat): nat
    requires n <= size && edge <= size
  {
    if n < edge then edge - n else size - (n - edge)
  }

  /** A turn of `calls` calls has read `n` bytes and the loop goes on as `rest`. */
  ghost function Onward(n: nat, broke: bool, rest: ReadEnd): ReadEnd {
    rest.(moved := n + rest.moved, error := broke || rest.error)
  }

  /** What a turn that reads `n` bytes in `calls` calls makes of the loop, `e`, and of its rest. */
  ghost predicate TurnLeaves(e: ReadEnd, rest: ReadEnd, answers: Answers, k: nat, n: nat, calls: nat) {
    var broke := AnyFails(answers, k, calls, false);
    e == if n == 0 then ReadEnd(k + calls, 0, broke, calls > 0 && answers(k).Wants?) else Onward(n, broke, rest)
  }

  /** A filled first chunk, with room left. */
  lemma FilledOffer(room: nat, edge: nat, size: nat, answers: Answers, k: nat)
    requires 0 < edge < room <= size && Moving(answers(k), edge) == edge
    ensures ReadFrom(room, edge, size, answers, k, false)
              == Onward(edge, answers(k).Breaks?, ReadFrom(room - edge, size, size, answers, k + 1, true))
  {
  }

  /** Then all the room there is gets offered; filled or not, a new turn begins. */
  lemma SecondOffer(room: nat, size: nat, answers: Answers, k: nat)
    requires 0 < room < size
    ensures var n := Moving(answers(k), room);
            ReadFrom(room, size, size, answers, k, true)
              == Onward(n, answers(k).Breaks?, ReadFrom(room - n, size - n, size, answers, k + 1, false))
  {
  }

  lemma FailsTwo(answers: Answers, k: nat)
    ensures AnyFails(answers, k, 2, false) <==> answers(k).Breaks? || answers(k + 1).Breaks?
  {
    assert answers(k + 1).Breaks? ==> k <= k + 1 < k + 2;
  }

  lemma OnwardTwice(e: ReadEnd, m: nat, n: nat, a: bool, b: bool, next: ReadEnd, rest: ReadEnd)
    requires e == Onward(m, a, next) && next == Onward(n, b, rest)
    ensures e == Onward(m + n, a || b, rest)
  {
  }

  lemma TwoOffers(room: nat, edge: nat, size: nat, answers: Answers, k: nat, n: nat)
    requires 0 < edge < room <= size && Moving(answers(k), edge) == edge && n == Moving(answers(k + 1), room - edge)
    ensures TurnLeaves(ReadFrom(room, edge, size, answers, k, false),
              ReadFrom(room - edge - n, size - n, size, answers, k + 2, false), answers, k, edge + n, 2)
  {
    FilledOffer(room, edge, size, answers, k);
    SecondOffer(room - edge, size, answers, k + 1);
    FailsTwo(answers, k);
    OnwardTwice(ReadFrom(room, edge, size, answers, k, false), edge, n, answers(k).Breaks?, answers(k + 1).Breaks?,
      ReadFrom(room - edge, size, size, answers, k + 1, true),
      ReadFrom(room - edge - n, size - n, size, answers, k + 2, false));
  }

  lemma OneOffer(room: nat, edge: nat, size: nat, answers: Answers, k: nat, n: nat)
    requires 0 < edge <= size && 0 < room <= size && n == Moving(answers(k), Min(room, edge))
    requires n < edge || room <= edge
    ensures TurnLeaves(ReadFrom(room, edge, size, answers, k, false),
              ReadFrom(room - n, NextEdge(edge, n, size), size, answers, k + 1, false), answers, k, n, 1)
  {
    assert AnyFails(answers, k, 1, false) <==> answers(k).Breaks?;
  }

  lemma NoOffer(edge: nat, size: nat, answers: Answers, k: nat)
    requires 0 < edge <= size
    ensures var e := ReadFrom(0, edge, size, answers, k, false); TurnLeaves(e, e, answers, k, 0, 0)
  {
    assert !AnyFails(answers, k, 0, false);
  }

  /** A turn's two offers, for `room` free bytes of which `edge` reach the end of the array. */
  ghost function OfferedBytes(fn: (nat, nat) -> seq<byte>, room: nat, edge: nat): seq<byte> {
    var first := Min(room, edge);
    if first == 0 then []
    else if |fn(0, first)| < first || first == room then fn(0, first)
    else fn(0, first) + fn(first, room - first)
  }

  ghost function OfferedCalls(fn: (nat, nat) -> seq<byte>, room: nat, edge: nat): nat {
    var first := Min(room, edge);
    if first == 0 then 0 else if |fn(0, first)| < first || first == room then 1 else 2
  }

  /** How a turn goes: no call, one, or one that fills up to the end of the array and another. */
  ghost predicate ReadTurns(room: nat, edge: nat, answers: Answers, k: nat, n: nat, calls: nat) {
    if calls == 0 then room == 0 && n == 0
    else if calls == 1 then
      room > 0 && n == Moving(answers(k), Min(room, edge)) && (n < edge || room <= edge)
    else
      calls == 2 && edge < room && Moving(answers(k), edge) == edge && n == edge + Moving(answers(k + 1), room - edge)
  }

  lemma ReadOffers(room: nat, edge: nat, answers: Answers, plain: Plain, k: nat, p: nat, d: seq<byte>, calls: nat)
    requires 0 < edge
    requires var fn := Reader(answers, k, plain, p);
             d == OfferedBytes(fn, room, edge) && calls == OfferedCalls(fn, room, edge)
    ensures d == Slice(plain, p, |d|) && ReadTurns(room, edge, answers, k, |d|, calls)
  {
    var fn, first := Reader(answers, k, plain, p), Min(room, edge);
    assert fn(0, first) == Given(answers(k), plain, p, first);
    if calls == 2 {
      assert fn(first, room - first) == Given(answers(k + 1), plain, p + first, room - first);
      SliceTwice(plain, p, edge, Moving(answers(k + 1), room - edge));
    }
  }

  /** The rest of the loop after a turn that reads `n` bytes. */
  ghost function AfterRead(room: nat, edge: nat, size: nat, answers: Answers, k: nat, n: nat): ReadEnd
    requires 0 < edge <= size && n <= room <= size
  {
    ReadFrom(room - n, if n < room then EdgeAfter(edge, n, size) else size, size, answers, k, false)
  }

  lemma OneReadTurn(room: nat, edge: nat, size: nat, answers: Answers, k: nat, n: nat)
    requires 0 < edge <= size && 0 < room <= size && n == Moving(answers(k), Min(room, edge))
    requires n < edge || room <= edge
    ensures TurnLeaves(ReadFrom(room, edge, size, answers, k, false), AfterRead(room, edge, size, answers, k + 1, n),
              answers, k, n, 1)
  {
    OneOffer(room, edge, size, answers, k, n);
    NoRoom(NextEdge(edge, n, size), size, answers, k + 1);
  }

  lemma TwoReadsTurn(room: nat, edge: nat, size: nat, answers: Answers, k: nat, m: nat)
    requires 0 < edge < room <= size && Moving(answers(k), edge) == edge && m == Moving(answers(k + 1), room - edge)
    ensures TurnLeaves(ReadFrom(room, edge, size, answers, k, false),
              AfterRead(room, edge, size, answers, k + 2, edge + m), answers, k, edge + m, 2)
  {
    TwoOffers(room, edge, size, answers, k, m);
    NoRoom(size - m, size, answers, k + 2);
  }

  lemma ReadTurn(room: nat, edge: nat, size: nat, answers: Answers, k: nat, n: nat, calls: nat)
    requires 0 < edge <= size && room <= size && ReadTurns(room, edge, answers, k, n, calls) && n <= room
    ensures TurnLeaves(ReadFrom(room, edge, size, answers, k, false),
              AfterRead(room, edge, size, answers, k + calls, n), answers, k, n, calls)
  {
    if calls == 0 {
      NoOffer(edge, size, answers, k);
    } else if calls == 1 {
      OneReadTurn(room, edge, size, answers, k, n);
    } else {
      TwoReadsTurn(room, edge, size, answers, k, n - edge);
    }
  }

  /** With no room the edge does not matter. */
  lemma NoRoom(edge: nat, size: nat, answers: Answers, k: nat)
    requires 0 < edge <= size
    ensures ReadFrom(0, edge, size, answers, k, false) == ReadFrom(0, size, size, answers, k, false)
  {
  }

  // ---- Writing ----

  // What a write loop leaves: the calls made, the bytes that SSL_write took, how many left the
  // buffer, and the handler's flags.
  datatype WriteEnd = WriteEnd(calls: nat, sent: seq<byte>, taken: nat, error: bool, want: bool)

  /** What the closure reports consumed of `size` bytes offered to SSL_write: a failure drops them. */
  function Consumed(a: SslAnswer, size: nat): (n: nat)
    ensures n <= size
  {
    if a.Moves? then Min(a.more + 1, size) else if a.Wants? then 0 else size
  }

  /** What SSL_write takes of the bytes that a call consumed. */
  function Sent(a: SslAnswer, d: seq<byte>): seq<byte> { if a.Moves? then d else [] }

  /** The loop offer by offer, from the k-th call on, for the bytes `q` of which `edge` reach the end of
      the array. A turn ends at an offer that is not consumed, or with no bytes; the loop ends with a
      turn that consumed nothing. `any` says whether this turn has consumed something. */
  ghost function WriteFrom(q: seq<byte>, edge: nat, size: nat, answers: Answers, k: nat, any: bool): (e: WriteEnd)
    requires 0 < edge <= size
    ensures e.calls >= k && e.taken <= |q|
    decreases |q|, if any then 1 else 0
  {
    if q == [] then WriteEnd(k, [], 0, false, false)
    else
      var a, chunk := answers(k), Min(|q|, edge);
      var n := Consumed(a, chunk);
      if n == 0 && !any then WriteEnd(k + 1, [], 0, false, true)
      else
        var rest := WriteFrom(q[n..], NextEdge(edge, n, size), size, answers, k + 1, n == chunk);
        rest.(sent := Sent(a, q[..n]) + rest.sent, taken := n + rest.taken, error := Fails(a, true) || rest.error)
  }

  /** Some bytes are lost exactly if there was an error, and if there was none what SSL_write took
      are the oldest bytes, in order; the buffer is empty or the handler waits for the socket, never
      both. */
  ghost predicate WritesOldest(q: seq<byte>, e: WriteEnd) {
    && |e.sent| <= e.taken <= |q| && (e.error <==> |e.sent| < e.taken)
    && (!e.error ==> e.sent == q[..e.taken])
    && (e.want <==> e.taken < |q|)
  }

  lemma OneMoreWrite(q: seq<byte>, n: nat, a: SslAnswer, chunk: nat, rest: WriteEnd)
    requires 0 < chunk <= |q| && n == Consumed(a, chunk) && WritesOldest(q[n..], rest)
    ensures WritesOldest(q, rest.(sent := Sent(a, q[..n]) + rest.sent, taken := n + rest.taken,
                                  error := Fails(a, true) || rest.error))
  {
    Slices(q, n, rest.taken);
  }

  lemma {:induction false} WriteFromOldest(q: seq<byte>, edge: nat, size: nat, answers: Answers, k: nat, any: bool)
    requires 0 < edge <= size
    ensures WritesOldest(q, WriteFrom(q, edge, size, answers, k, any))
    decreases |q|, if any then 1 else 0
  {
    var chunk := Min(|q|, edge);
    var n := Consumed(answers(k), chunk);
    if q != [] && (n > 0 || any) {
      WriteFromOldest(q[n..], NextEdge(edge, n, size), size, answers, k + 1, n == chunk);
      OneMoreWrite(q, n, answers(k), chunk,
        WriteFrom(q[n..], NextEdge(edge, n, size), size, answers, k + 1, n == chunk));
    }
  }

  /** Whatever the answers, there is an error exactly if a call failed, and the handler waits only
      after an answer to wait. */
  lemma {:induction false} WriteFromFlags(q: seq<byte>, edge: nat, size: nat, answers: Answers, k: nat, any: bool)
    requires 0 < edge <= size
    ensures var e := WriteFrom(q, edge, size, answers, k, any);
            && (e.error <==> AnyFails(answers, k, e.calls - k, true))
            && (e.want ==> e.calls > k && answers(e.calls - 1).Wants?)
    decreases |q|, if any then 1 else 0
  {
    var n := Consumed(answers(k), Min(|q|, edge));
    if q != [] && (n > 0 || any) {
      var rest := WriteFrom(q[n..], NextEdge(edge, n, size), size, answers, k + 1, n == Min(|q|, edge));
      WriteFromFlags(q[n..], NextEdge(edge, n, size), size, answers, k + 1, n == Min(|q|, edge));
      FailsMore(answers, k, rest.calls - k - 1);
    }
  }

  lemma FailsMore(answers: Answers, k: nat, n: nat)
    ensures AnyFails(answers, k, n + 1, true) <==> Fails(answers(k), true) || AnyFails(answers, k + 1, n, true)
  {
  }

  lemma Slices(q: seq<byte>, n: nat, m: nat)
    requires n + m <= |q|
    ensures q[..n] + q[n..][..m] == q[..n + m]
  {
  }

  /** The closure of handle_write when `k` calls were made before. */
  function Writer(answers: Answers, k: nat): ((nat, seq<byte>) -> nat) {
    (done: nat, chunk: seq<byte>) => Consumed(answers(if done == 0 then k else k + 1), |chunk|)
  }

  /** A turn has consumed `n` bytes, of which `d` were taken, and the loop goes on as `rest`. */
  ghost function Forth(n: nat, d: seq<byte>, broke: bool, rest: WriteEnd): WriteEnd {
    rest.(sent := d + rest.sent, taken := n + rest.taken, error := broke || rest.error)
  }

  /** What a turn that consumes `n` bytes in `calls` calls makes of the loop, `e`, and of its rest. */
  ghost predicate WriteLeaves(e: WriteEnd, rest: WriteEnd, answers: Answers, k: nat, n: nat, d: seq<byte>, calls: nat) {
    e == if n == 0 then WriteEnd(k + calls, [], 0, false, calls > 0)
         else Forth(n, d, AnyFails(answers, k, calls, true), rest)
  }

  lemma FilledWrite(q: seq<byte>, edge: nat, size: nat, answers: Answers, k: nat)
    requires 0 < edge < |q| <= size && Consumed(answers(k), edge) == edge
    ensures WriteFrom(q, edge, size, answers, k, false)
              == Forth(edge, Sent(answers(k), q[..edge]), Fails(answers(k), true),
                       WriteFrom(q[edge..], size, size, answers, k + 1, true))
  {
  }

  lemma SecondWrite(q: seq<byte>, size: nat, answers: Answers, k: nat)
    requires 0 < |q| < size
    ensures var n := Consumed(answers(k), |q|);
            WriteFrom(q, size, size, answers, k, true)
              == Forth(n, Sent(answers(k), q[..n]), Fails(answers(k), true),
                       WriteFrom(q[n..], size - n, size, answers, k + 1, false))
  {
  }

  lemma WriteFailsTwo(answers: Answers, k: nat)
    ensures AnyFails(answers, k, 2, true) <==> Fails(answers(k), true) || Fails(answers(k + 1), true)
  {
    assert Fails(answers(k + 1), true) ==> k <= k + 1 < k + 2;
  }

  lemma ForthTwice(e: WriteEnd, m: nat, n: nat, c: seq<byte>, d: seq<byte>, a: bool, b: bool,
                   next: WriteEnd, rest: WriteEnd)
    requires e == Forth(m, c, a, next) && next == Forth(n, d, b, rest)
    ensures e == Forth(m + n, c + d, a || b, rest)
  {
    assert c + (d + rest.sent) == (c + d) + rest.sent;
  }

  lemma TwoWrites(q: seq<byte>, edge: nat, size: nat, answers: Answers, k: nat, n: nat)
    requires 0 < edge < |q| <= size && Consumed(answers(k), edge) == edge && n == Consumed(answers(k + 1), |q| - edge)
    ensures var d := Sent(answers(k), q[..edge]) + Sent(answers(k + 1), q[edge..][..n]);
            WriteLeaves(WriteFrom(q, edge, size, answers, k, false),
              WriteFrom(q[edge + n..], size - n, size, answers, k + 2, false), answers, k, edge + n, d, 2)
  {
    FilledWrite(q, edge, size, answers, k);
    SecondWrite(q[edge..], size, answers, k + 1);
    WriteFailsTwo(answers, k);
    assert q[edge..][n..] == q[edge + n..];
    ForthTwice(WriteFrom(q, edge, size, answers, k, false), edge, n,
      Sent(answers(k), q[..edge]), Sent(answers(k + 1), q[edge..][..n]),
      Fails(answers(k), true), Fails(answers(k + 1), true),
      WriteFrom(q[edge..], size, size, answers, k + 1, true),
      WriteFrom(q[edge + n..], size - n, size, answers, k + 2, false));
  }

  lemma OneWrite(q: seq<byte>, edge: nat, size: nat, answers: Answers, k: nat, n: nat)
    requires 0 < edge <= size && 0 < |q| <= size && n == Consumed(answers(k), Min(|q|, edge))
    requires n < edge || |q| <= edge
    ensures WriteLeaves(WriteFrom(q, edge, size, answers, k, false),
              WriteFrom(q[n..], NextEdge(edge, n, size), size, answers, k + 1, false),
              answers, k, n, Sent(answers(k), q[..n]), 1)
  {
    assert AnyFails(answers, k, 1, true) <==> Fails(answers(k), true);
  }

  /** A turn's two offers, for the bytes `q` of which `edge` reach the end of the array. */
  ghost function OfferedCount(fn: (nat, seq<byte>) -> nat, q: seq<byte>, edge: nat): nat {
    var first := Min(|q|, edge);
    if first == 0 then 0
    else if fn(0, q[..first]) < first || first == |q| then fn(0, q[..first])
    else fn(0, q[..first]) + fn(first, q[first..])
  }

  ghost function OfferedWrites(fn: (nat, seq<byte>) -> nat, q: seq<byte>, edge: nat): nat {
    var first := Min(|q|, edge);
    if first == 0 then 0 else if fn(0, q[..first]) < first || first == |q| then 1 else 2
  }

  /** With no bytes the edge does not matter. */
  lemma NoBytes(q: seq<byte>, edge: nat, size: nat, answers: Answers, k: nat)
    requires 0 < edge <= size && q == []
    ensures WriteFrom(q, edge, size, answers, k, false) == WriteEnd(k, [], 0, false, false)
  {
  }

  /** What SSL_write takes in a turn of `calls` calls that consumes `n` of the bytes `q`. */
  ghost function TurnSent(q: seq<byte>, edge: nat, answers: Answers, k: nat, n: nat, calls: nat): seq<byte>
    requires n <= |q|
  {
    if calls < 2 || n < edge then Sent(answers(k), q[..n])
    else Sent(answers(k), q[..edge]) + Sent(answers(k + 1), q[edge..][..n - edge])
  }

  /** The rest of the loop after a turn that consumes `n` bytes. */
  ghost function AfterTurn(q: seq<byte>, edge: nat, size: nat, answers: Answers, k: nat, n: nat): WriteEnd
    requires 0 < edge <= size && n <= |q| <= size
  {
    WriteFrom(q[n..], if n < |q| then EdgeAfter(edge, n, size) else size, size, answers, k, false)
  }

  lemma NoWriteTurn(q: seq<byte>, edge: nat, size: nat, answers: Answers, k: nat)
    requires 0 < edge <= size && q == []
    ensures WriteLeaves(WriteFrom(q, edge, size, answers, k, false), AfterTurn(q, edge, size, answers, k, 0),
              answers, k, 0, [], 0)
    ensures TurnSent(q, edge, answers, k, 0, 0) == []
  {
    NoBytes(q, edge, size, answers, k);
  }

  lemma OneWriteTurn(q: seq<byte>, edge: nat, size: nat, answers: Answers, k: nat, n: nat)
    requires 0 < edge <= size && 0 < |q| <= size && n == Consumed(answers(k), Min(|q|, edge))
    requires n < edge || |q| <= edge
    ensures WriteLeaves(WriteFrom(q, edge, size, answers, k, false), AfterTurn(q, edge, size, answers, k + 1, n),
              answers, k, n, Sent(answers(k), q[..n]), 1)
  {
    OneWrite(q, edge, size, answers, k, n);
    if n == |q| {
      NoBytes(q[n..], NextEdge(edge, n, size), size, answers, k + 1);
      NoBytes(q[n..], size, size, answers, k + 1);
    }
  }

  lemma TwoWritesTurn(q: seq<byte>, edge: nat, size: nat, answers: Answers, k: nat, m: nat)
    requires 0 < edge < |q| <= size && Consumed(answers(k), edge) == edge && m == Consumed(answers(k + 1), |q| - edge)
    ensures WriteLeaves(WriteFrom(q, edge, size, answers, k, false), AfterTurn(q, edge, size, answers, k + 2, edge + m),
              answers, k, edge + m, Sent(answers(k), q[..edge]) + Sent(answers(k + 1), q[edge..][..m]), 2)
  {
    TwoWrites(q, edge, size, answers, k, m);
    if edge + m == |q| {
      NoBytes(q[edge + m..], size - m, size, answers, k + 2);
      NoBytes(q[edge + m..], size, size, answers, k + 2);
    }
  }

  /** How a turn goes: no call, one, or one that consumes up to the end of the array and another. */
  ghost predicate WriteTurns(q: seq<byte>, edge: nat, answers: Answers, k: nat, n: nat, calls: nat) {
    if calls == 0 then q == [] && n == 0
    else if calls == 1 then
      q != [] && n == Consumed(answers(k), Min(|q|, edge)) && (n < edge || |q| <= edge)
    else
      calls == 2 && edge < |q| && Consumed(answers(k), edge) == edge
      && n == edge + Consumed(answers(k + 1), |q| - edge)
  }

  lemma WriteOffers(q: seq<byte>, edge: nat, answers: Answers, k: nat, n: nat, calls: nat)
    requires 0 < edge
    requires var fn := Writer(answers, k); n == OfferedCount(fn, q, edge) && calls == OfferedWrites(fn, q, edge)
    ensures WriteTurns(q, edge, answers, k, n, calls)
  {
    var fn, first := Writer(answers, k), Min(|q|, edge);
    assert fn(0, q[..first]) == Consumed(answers(k), first);
    if calls == 2 {
      assert fn(first, q[first..]) == Consumed(answers(k + 1), |q| - edge);
    }
  }

  lemma WriteTurn(q: seq<byte>, edge: nat, size: nat, answers: Answers, k: nat, n: nat, calls: nat)
    requires 0 < edge <= size && |q| <= size && WriteTurns(q, edge, answers, k, n, calls) && n <= |q|
    ensures WriteLeaves(WriteFrom(q, edge, size, answers, k, false), AfterTurn(q, edge, size, answers, k + calls, n),
              answers, k, n, TurnSent(q, edge, answers, k, n, calls), calls)
  {
    hide WriteFrom, AfterTurn, WriteLeaves;
    if calls == 0 {
      NoWriteTurn(q, edge, size, answers, k);
    } else if calls == 1 {
      OneWriteTurn(q, edge, size, answers, k, n);
    } else {
      TwoWritesTurn(q, edge, size, answers, k, n - edge);
    }
  }
}
