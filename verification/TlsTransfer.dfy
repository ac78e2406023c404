/** The read and the write loop of the TLS handlers on a connection's buffer: SSL_read fills it and
    SSL_write empties it until it has nothing more to give or to take. */
module TlsTransfer {
  import opened Bits
  import opened Buffer
  import opened RingValue
  import opened SslLoops

  /** The loop from its k-th call on, on a ring. */
  ghost function ReadRest(r: Ring, answers: Answers, k: nat): (e: ReadEnd)
    requires r.Valid()
    ensures e.moved <= r.FreeSpace()
  {
    ReadFrom(r.FreeSpace(), EdgeOf(r), r.Size(), answers, k, false)
  }

  /** Whatever the answers, a read attempt adds exactly the bytes the peer sent next; there is an
      error exactly if a call failed, and bytes were read exactly if one moved some; it ends with the
      buffer full or after an answer that moved nothing, and waits exactly if that answer did. */
  lemma ReadMeans(r: Ring, answers: Answers, plain: Plain)
    requires r.Valid()
    ensures var e := ReadRest(r, answers, 0);
            var r' := r.Append(Slice(plain, 0, e.moved));
            && r'.Valid() && r'.Contents() == r.Contents() + Slice(plain, 0, e.moved)
            && (e.moved > 0 <==> Moved(answers, 0, e.calls)) && (e.error <==> AnyFails(answers, 0, e.calls, false))
            && (e.moved == r.FreeSpace() || (e.calls > 0 && !answers(e.calls - 1).Moves?))
            && (e.want <==> e.moved < r.FreeSpace() && answers(e.calls - 1).Wants?)
  {
    ReadFromMeans(r.FreeSpace(), EdgeOf(r), r.Size(), answers, 0, false);
    AppendContents(r, Slice(plain, 0, ReadRest(r, answers, 0).moved));
  }

  /** A read attempt achieves nothing and asks for nothing exactly when the buffer is full or the
      first answer is the end of the stream. */
  lemma {:induction false} ReadsNothing(r: Ring, answers: Answers)
    requires r.Valid()
    ensures var e := ReadRest(r, answers, 0);
            e.moved == 0 && !e.error && !e.want <==> r.FreeSpace() == 0 || answers(0).Ends?
  {
    CapacityPositive(r.Size());
    ReadFromMeans(r.FreeSpace(), r.Size() - r.TailIndex(), r.Size(), answers, 0, false);
    if r.FreeSpace() > 0 {
      assert answers(0).Moves? ==> Moved(answers, 0, ReadRest(r, answers, 0).calls);
      if !answers(0).Moves? {
        FirstStops(r.FreeSpace(), r.Size() - r.TailIndex(), r.Size(), answers, 0);
      }
    }
  }

  lemma ReaderFits(answers: Answers, k: nat, plain: Plain, p: nat)
    ensures FitsRegion(Reader(answers, k, plain, p))
  {
    forall done: nat, room: nat
      ensures |Reader(answers, k, plain, p)(done, room)| <= room
    {
      assert Reader(answers, k, plain, p)(done, room) ==
             Given(answers(if done == 0 then k else k + 1), plain, p + done, room);
    }
  }

  lemma OffersAre(r: Ring, fn: Filler)
    requires r.Valid() && r.Size() > 0 && FitsRegion(fn)
    ensures Filled(r, fn) == OfferedBytes(fn, r.FreeSpace(), r.Size() - r.TailIndex())
    ensures FillCalls(r, fn) == OfferedCalls(fn, r.FreeSpace(), r.Size() - r.TailIndex())
  {
  }

  /** How many of the free bytes reach the end of the array. */
  ghost function EdgeOf(r: Ring): (edge: nat)
    requires r.Valid()
    ensures 0 < edge <= r.Size()
  {
    CapacityPositive(r.Size());
    r.Size() - r.TailIndex()
  }

  /** The ring after `n` bytes are stored, as far as the loop is concerned. */
  ghost predicate Fuller(r: Ring, r': Ring, n: nat) {
    && r.Valid() && r'.Valid() && r'.Size() == r.Size() && n <= r.FreeSpace() && r'.FreeSpace() == r.FreeSpace() - n
    && EdgeOf(r') == EdgeAfter(EdgeOf(r), n, r.Size())
  }

  lemma AppendFuller(r: Ring, d: seq<byte>)
    requires r.Valid() && |d| <= r.FreeSpace()
    ensures Fuller(r, r.Append(d), |d|)
  {
    AppendSpace(r, d);
  }

  lemma RestAfter(r: Ring, r': Ring, n: nat, answers: Answers, k: nat)
    requires Fuller(r, r', n)
    ensures ReadRest(r', answers, k) == AfterRead(r.FreeSpace(), EdgeOf(r), r.Size(), answers, k, n)
  {
    if n == r.FreeSpace() {
      NoRoom(EdgeOf(r'), r.Size(), answers, k);
    }
  }

  lemma RingTurn(r: Ring, r': Ring, answers: Answers, k: nat, n: nat, calls: nat)
    requires Fuller(r, r', n) && ReadTurns(r.FreeSpace(), EdgeOf(r), answers, k, n, calls)
    ensures TurnLeaves(ReadRest(r, answers, k), ReadRest(r', answers, k + calls), answers, k, n, calls)
  {
    ReadTurn(r.FreeSpace(), EdgeOf(r), r.Size(), answers, k, n, calls);
    RestAfter(r, r', n, answers, k + calls);
  }

  /** What a turn that reads `n` bytes in `calls` calls does to a ring. */
  ghost predicate Turned(r: Ring, r': Ring, answers: Answers, plain: Plain, k: nat, p: nat, n: nat, calls: nat) {
    && Fuller(r, r', n) && r' == r.Append(Slice(plain, p, n))
    && TurnLeaves(ReadRest(r, answers, k), ReadRest(r', answers, k + calls), answers, k, n, calls)
  }

  lemma FilledOffers(r: Ring, answers: Answers, plain: Plain, k: nat, p: nat, d: seq<byte>, calls: nat)
    requires r.Valid() && r.Size() > 0 && FitsRegion(Reader(answers, k, plain, p))
    requires d == Filled(r, Reader(answers, k, plain, p)) && calls == FillCalls(r, Reader(answers, k, plain, p))
    ensures d == Slice(plain, p, |d|) && ReadTurns(r.FreeSpace(), EdgeOf(r), answers, k, |d|, calls)
  {
    OffersAre(r, Reader(answers, k, plain, p));
    ReadOffers(r.FreeSpace(), EdgeOf(r), answers, plain, k, p, d, calls);
  }

  lemma FilledTurns(r: Ring, answers: Answers, plain: Plain, k: nat, p: nat, d: seq<byte>, calls: nat)
    requires r.Valid() && |d| <= r.FreeSpace() && d == Slice(plain, p, |d|)
    requires ReadTurns(r.FreeSpace(), EdgeOf(r), answers, k, |d|, calls)
    ensures Turned(r, r.Append(d), answers, plain, k, p, |d|, calls)
  {
    AppendFuller(r, d);
    RingTurn(r, r.Append(d), answers, k, |d|, calls);
  }

  lemma HasRing(b: FixedSizeBuffer)
    requires b.Valid()
    ensures b.Value().Valid() && b.Value().Size() > 0
  {
  }

  method Refill(b: FixedSizeBuffer, fn: Filler, ghost d: seq<byte>, ghost c: nat) returns (total: nat, calls: nat)
    requires b.Valid() && FitsRegion(fn) && d == Filled(b.Value(), fn) && c == FillCalls(b.Value(), fn)
    modifies b, b.data
    ensures b.Valid() && total == |d| && calls == c && b.Value() == old(b.Value()).Append(d)
  {
    total, calls := b.ConsumeFree(fn);
  }

  lemma AppendMore(r: Ring, plain: Plain, p: nat, n: nat)
    requires r.Valid() && p + n <= r.FreeSpace()
    ensures r.Append(Slice(plain, 0, p)).Valid() && r.Append(Slice(plain, 0, p)).FreeSpace() == r.FreeSpace() - p
    ensures r.Append(Slice(plain, 0, p)).Append(Slice(plain, p, n)) == r.Append(Slice(plain, 0, p + n))
  {
    AppendSpace(r, Slice(plain, 0, p));
    AppendTwice(r, Slice(plain, 0, p), Slice(plain, p, n));
    SliceTwice(plain, 0, p, n);
  }

  /** The loop that began with `r` has read `p` bytes in `k` calls and stands at `now`. */
  ghost predicate Underway(r: Ring, now: Ring, answers: Answers, plain: Plain, k: nat, p: nat, error: bool)
    requires r.Valid() && now.Valid()
  {
    && p <= r.FreeSpace() && now == r.Append(Slice(plain, 0, p)) && now.FreeSpace() == r.FreeSpace() - p
    && ReadRest(r, answers, 0) == Onward(p, error, ReadRest(now, answers, k))
  }

  /** It has ended. */
  ghost predicate Over(r: Ring, now: Ring, answers: Answers, plain: Plain, e: ReadEnd)
    requires r.Valid()
  {
    e == ReadRest(r, answers, 0) && now == r.Append(Slice(plain, 0, e.moved))
  }

  lemma ReadStarts(r: Ring, answers: Answers, plain: Plain)
    requires r.Valid()
    ensures Underway(r, r, answers, plain, 0, 0, false)
  {
    AppendNothing(r);
    assert Slice(plain, 0, 0) == [];
  }

  /** Where a turn from `now` to `next` leaves the loop; `more` says whether there is another. */
  ghost predicate Went(r: Ring, now: Ring, next: Ring, answers: Answers, plain: Plain, more: bool,
                       k: nat, p: nat, error: bool, want: bool)
    requires r.Valid() && now.Valid() && next.Valid()
  {
    if more then next.FreeSpace() < now.FreeSpace() && Underway(r, next, answers, plain, k, p, error)
    else Over(r, next, answers, plain, ReadEnd(k, p, error, want))
  }

  lemma ReadMore(r: Ring, now: Ring, next: Ring, answers: Answers, plain: Plain, k: nat, p: nat, error: bool,
                 n: nat, calls: nat, broke: bool)
    requires r.Valid() && now.Valid() && next.Valid() && Underway(r, now, answers, plain, k, p, error)
    requires Turned(now, next, answers, plain, k, p, n, calls) && (broke <==> AnyFails(answers, k, calls, false))
    ensures Went(r, now, next, answers, plain, n > 0, k + calls, p + n, error || broke, calls > 0 && answers(k).Wants?)
  {
    AppendMore(r, plain, p, n);
  }

  /** The turn that stores `d` in `c` calls. */
  lemma ReadNext(r: Ring, now: Ring, answers: Answers, plain: Plain, k: nat, p: nat, error: bool, d: seq<byte>, c: nat)
    requires r.Valid() && now.Valid() && now.Size() > 0 && Underway(r, now, answers, plain, k, p, error)
    requires FitsRegion(Reader(answers, k, plain, p))
    requires d == Filled(now, Reader(answers, k, plain, p)) && c == FillCalls(now, Reader(answers, k, plain, p))
    ensures now.Append(d).Valid()
    ensures Went(r, now, now.Append(d), answers, plain, |d| > 0, k + c, p + |d|,
                 error || AnyFails(answers, k, c, false), c > 0 && answers(k).Wants?)
  {
    hide *;
    AppendContents(now, d);
    FilledOffers(now, answers, plain, k, p, d, c);
    FilledTurns(now, answers, plain, k, p, d, c);
    ReadMore(r, now, now.Append(d), answers, plain, k, p, error, |d|, c, AnyFails(answers, k, c, false));
  }

  /** A turn of the loop that began with `r`. */
  method ReadOn(b: FixedSizeBuffer, ghost r: Ring, answers: Answers, plain: Plain, k: nat, p: nat, error: bool)
    returns (more: bool, k': nat, p': nat, error': bool, want: bool)
    requires b.Valid() && r.Valid() && Underway(r, b.Value(), answers, plain, k, p, error)
    modifies b, b.data
    ensures b.Valid() && Went(r, old(b.Value()), b.Value(), answers, plain, more, k', p', error', want)
  {
    hide *;
    HasRing(b);
    ReaderFits(answers, k, plain, p);
    ghost var now, fn := b.Value(), Reader(answers, k, plain, p);
    ghost var d, c := Filled(now, fn), FillCalls(now, fn);
    ReadNext(r, now, answers, plain, k, p, error, d, c);
    var waits := answers(k).Wants?;
    var total, calls := Refill(b, Reader(answers, k, plain, p), d, c);
    more, k', p' := total > 0, k + calls, p + total;
    error', want := error || AnyFails(answers, k, calls, false), calls > 0 && waits;
  }

  method ReadAll(b: FixedSizeBuffer, answers: Answers, plain: Plain) returns (e: ReadEnd)
    requires b.Valid()
    modifies b, b.data
    ensures b.Valid() && e == ReadRest(old(b.Value()), answers, 0)
    ensures b.Value() == old(b.Value()).Append(Slice(plain, 0, e.moved))
  {
    ghost var r := b.Value();
    var more, error, want := true, false, false;
    var k: nat, p: nat := 0, 0;
    ReadStarts(r, answers, plain);
    while more
      invariant b.Valid()
      invariant more ==> Underway(r, b.Value(), answers, plain, k, p, error)
      invariant !more ==> Over(r, b.Value(), answers, plain, ReadEnd(k, p, error, want))
      decreases more, b.Value().FreeSpace()
    {
      more, k, p, error, want := ReadOn(b, r, answers, plain, k, p, error);
    }
    e := ReadEnd(k, p, error, want);
  }

  // ---- Writing ----

  /** How many of the used bytes reach the end of the array. */
  ghost function UsedEdge(r: Ring): (edge: nat)
    requires r.Valid()
    ensures 0 < edge <= r.Size()
  {
    CapacityPositive(r.Size());
    r.Size() - r.HeadIndex()
  }

  /** The loop from its k-th call on, on a ring. */
  ghost function WriteRest(r: Ring, answers: Answers, k: nat): (e: WriteEnd)
    requires r.Valid()
    ensures e.taken <= r.Count()
  {
    WriteFrom(r.Contents(), UsedEdge(r), r.Size(), answers, k, false)
  }

  /** Whatever the answers, a write attempt takes the oldest bytes out of the buffer; some of them are
      lost exactly if a call failed, and otherwise they are what SSL_write took, in order; it ends
      with the buffer empty or waiting for the socket, never both. */
  lemma WriteMeans(r: Ring, answers: Answers)
    requires r.Valid()
    ensures var e := WriteRest(r, answers, 0);
            var r' := r.AdvanceHead(e.taken);
            && r'.Valid() && r'.Contents() == r.Contents()[e.taken..] && WritesOldest(r.Contents(), e)
            && (e.error <==> AnyFails(answers, 0, e.calls, true)) && (e.want <==> r'.Contents() != [])
  {
    WriteFromOldest(r.Contents(), UsedEdge(r), r.Size(), answers, 0, false);
    WriteFromFlags(r.Contents(), UsedEdge(r), r.Size(), answers, 0, false);
    AdvanceHeadContents(r, WriteRest(r, answers, 0).taken);
  }

  lemma WriterFits(answers: Answers, k: nat)
    ensures FitsChunk(Writer(answers, k))
  {
    forall done: nat, chunk: seq<byte>
      ensures Writer(answers, k)(done, chunk) <= |chunk|
    {
      assert Writer(answers, k)(done, chunk) == Consumed(answers(if done == 0 then k else k + 1), |chunk|);
    }
  }

  lemma WritesAre(r: Ring, fn: Drainer)
    requires r.Valid() && r.Size() > 0 && FitsChunk(fn)
    ensures Drained(r, fn) == OfferedCount(fn, r.Contents(), UsedEdge(r))
    ensures DrainCalls(r, fn) == OfferedWrites(fn, r.Contents(), UsedEdge(r))
  {
  }

  /** The ring after `n` bytes are consumed, as far as the loop is concerned. */
  ghost predicate Emptier(r: Ring, r': Ring, n: nat) {
    && r.Valid() && r'.Valid() && r'.Size() == r.Size() && n <= r.Count() && r'.Contents() == r.Contents()[n..]
    && UsedEdge(r') == EdgeAfter(UsedEdge(r), n, r.Size())
  }

  lemma AdvanceEmptier(r: Ring, n: nat)
    requires r.Valid() && n <= r.Count()
    ensures Emptier(r, r.AdvanceHead(n), n)
  {
    CapacityPositive(r.Size());
    AdvanceHeadContents(r, n);
    AdvanceIndex(r.head, n, r.Size());
  }

  lemma WriteRestAfter(r: Ring, r': Ring, n: nat, answers: Answers, k: nat)
    requires Emptier(r, r', n)
    ensures WriteRest(r', answers, k) == AfterTurn(r.Contents(), UsedEdge(r), r.Size(), answers, k, n)
  {
    if n == r.Count() {
      NoBytes(r'.Contents(), UsedEdge(r'), r.Size(), answers, k);
      NoBytes(r'.Contents(), r.Size(), r.Size(), answers, k);
    }
  }

  /** What SSL_write takes in a turn of `calls` calls that consumes `n` bytes. */
  ghost function RingSent(r: Ring, answers: Answers, k: nat, n: nat, calls: nat): seq<byte>
    requires r.Valid() && n <= r.Count()
  {
    TurnSent(r.Contents(), UsedEdge(r), answers, k, n, calls)
  }

  /** What a turn that consumes `n` bytes in `calls` calls does to a ring. */
  ghost predicate WriteTurned(r: Ring, r': Ring, answers: Answers, k: nat, n: nat, calls: nat) {
    && Emptier(r, r', n) && r' == r.AdvanceHead(n)
    && WriteLeaves(WriteRest(r, answers, k), WriteRest(r', answers, k + calls), answers, k, n,
                   RingSent(r, answers, k, n, calls), calls)
  }

  lemma WriteRingTurn(r: Ring, r': Ring, answers: Answers, k: nat, n: nat, calls: nat)
    requires Emptier(r, r', n) && WriteTurns(r.Contents(), UsedEdge(r), answers, k, n, calls)
    ensures WriteLeaves(WriteRest(r, answers, k), WriteRest(r', answers, k + calls), answers, k, n,
                        RingSent(r, answers, k, n, calls), calls)
  {
    WriteTurn(r.Contents(), UsedEdge(r), r.Size(), answers, k, n, calls);
    WriteRestAfter(r, r', n, answers, k + calls);
  }

  lemma DrainedTurns(r: Ring, answers: Answers, k: nat, n: nat, calls: nat)
    requires r.Valid() && r.Size() > 0 && FitsChunk(Writer(answers, k))
    requires n == Drained(r, Writer(answers, k)) && calls == DrainCalls(r, Writer(answers, k))
    ensures WriteTurned(r, r.AdvanceHead(n), answers, k, n, calls)
  {
    WritesAre(r, Writer(answers, k));
    WriteOffers(r.Contents(), UsedEdge(r), answers, k, n, calls);
    AdvanceEmptier(r, n);
    WriteRingTurn(r, r.AdvanceHead(n), answers, k, n, calls);
  }

  method Drain(b: FixedSizeBuffer, fn: Drainer, ghost n: nat, ghost c: nat) returns (total: nat, calls: nat)
    requires b.Valid() && FitsChunk(fn) && n == Drained(b.Value(), fn) && c == DrainCalls(b.Value(), fn)
    modifies b
    ensures b.Valid() && total == n && calls == c && b.Value() == old(b.Value()).AdvanceHead(n)
  {
    var taken;
    total, taken, calls := b.ConsumeUsed(fn);
  }

  /** One turn of the loop. */
  method WriteSome(b: FixedSizeBuffer, answers: Answers, k: nat)
    returns (total: nat, calls: nat, broke: bool)
    requires b.Valid()
    modifies b
    ensures b.Valid() && WriteTurned(old(b.Value()), b.Value(), answers, k, total, calls)
    ensures broke == AnyFails(answers, k, calls, true)
  {
    WriterFits(answers, k);
    ghost var r, fn := b.Value(), Writer(answers, k);
    ghost var n, c := Drained(r, fn), DrainCalls(r, fn);
    DrainedTurns(r, answers, k, n, c);
    total, calls := Drain(b, Writer(answers, k), n, c);
    broke := AnyFails(answers, k, calls, true);
  }

  /** The loop that began with `r` has consumed `n` bytes in `k` calls, of which SSL_write took `sent`,
      and stands at `now`. */
  ghost predicate Draining(r: Ring, now: Ring, answers: Answers, k: nat, n: nat, sent: seq<byte>, error: bool)
    requires r.Valid() && now.Valid()
  {
    && n <= r.Count() && now == r.AdvanceHead(n) && now.Count() == r.Count() - n
    && WriteRest(r, answers, 0) == Forth(n, sent, error, WriteRest(now, answers, k))
  }

  lemma WriteStarts(r: Ring, answers: Answers)
    requires r.Valid()
    ensures Draining(r, r, answers, 0, 0, [], false)
  {
    AdvanceNothing(r);
    assert [] + WriteRest(r, answers, 0).sent == WriteRest(r, answers, 0).sent;
  }

  lemma WriteMore(r: Ring, now: Ring, next: Ring, answers: Answers, k: nat, n: nat, sent: seq<byte>, error: bool,
                  m: nat, calls: nat, broke: bool)
    requires r.Valid() && now.Valid() && next.Valid() && Draining(r, now, answers, k, n, sent, error)
    requires WriteTurned(now, next, answers, k, m, calls) && (broke <==> AnyFails(answers, k, calls, true))
    ensures m > 0 ==>
      Draining(r, next, answers, k + calls, n + m, sent + RingSent(now, answers, k, m, calls), error || broke)
    ensures m == 0 ==>
      next == r.AdvanceHead(n) && WriteRest(r, answers, 0) == WriteEnd(k + calls, sent, n, error, calls > 0)
  {
    AdvanceTwice(r, n, m);
    if m > 0 {
      var rest := WriteRest(next, answers, k + calls);
      ForthTwice(WriteRest(r, answers, 0), n, m, sent, RingSent(now, answers, k, m, calls), error, broke,
        WriteRest(now, answers, k), rest);
    } else {
      assert sent + [] == sent;
    }
  }

  /** A turn of the loop that began with `r`; SSL_write has taken `sent` before it and `d` in it. */
  method WriteOn(b: FixedSizeBuffer, ghost r: Ring, answers: Answers, k: nat, n: nat, ghost sent: seq<byte>,
                 error: bool)
    returns (total: nat, calls: nat, broke: bool, ghost d: seq<byte>)
    requires b.Valid() && r.Valid() && Draining(r, b.Value(), answers, k, n, sent, error)
    modifies b
    ensures b.Valid()
    ensures total > 0 ==> b.Value().Count() < old(b.Value().Count())
                          && Draining(r, b.Value(), answers, k + calls, n + total, sent + d, error || broke)
    ensures total == 0 ==> b.Value() == r.AdvanceHead(n)
                           && WriteRest(r, answers, 0) == WriteEnd(k + calls, sent, n, error, calls > 0)
  {
    ghost var now := b.Value();
    total, calls, broke := WriteSome(b, answers, k);
    d := RingSent(now, answers, k, total, calls);
    WriteMore(r, now, b.Value(), answers, k, n, sent, error, total, calls, broke);
  }

  method WriteAll(b: FixedSizeBuffer, answers: Answers) returns (error: bool, want: bool, ghost e: WriteEnd)
    requires b.Valid()
    modifies b
    ensures b.Valid() && e == WriteRest(old(b.Value()), answers, 0) && b.Value() == old(b.Value()).AdvanceHead(e.taken)
    ensures error == e.error && want == e.want
  {
    ghost var r := b.Value();
    ghost var sent: seq<byte> := [];
    var k: nat, n: nat := 0, 0;
    error := false;
    WriteStarts(r, answers);
    while true
      invariant b.Valid() && Draining(r, b.Value(), answers, k, n, sent, error)
      decreases b.Value().Count()
    {
      var total, calls, broke, d := WriteOn(b, r, answers, k, n, sent, error);
      if total == 0 {
        return error, calls > 0, WriteEnd(k + calls, sent, n, error, calls > 0);
      }
      error, k, n, sent := error || broke, k + calls, n + total, sent + d;
    }
  }
}
