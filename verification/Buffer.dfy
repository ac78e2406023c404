/** fixed_size_buffer as it runs: a byte array and two 64-bit words, changed in place. Its
    methods are proved against the ring values of module RingValue. */
module Buffer {
  import opened Bits
  import opened RingValue

  // What a closure answers to one offer: given the bytes moved so far and the size of the
  // region it is offered, the bytes it stores there.
  type Filler = (nat, nat) -> seq<byte>

  // Given the bytes moved so far and the region it is offered, how many bytes it consumes.
  type Drainer = (nat, seq<byte>) -> nat

  ghost predicate FitsRegion(fn: Filler) {
    forall done: nat, room: nat :: |fn(done, room)| <= room
  }

  ghost predicate FitsChunk(fn: Drainer) {
    forall done: nat, chunk: seq<byte> :: fn(done, chunk) <= |chunk|
  }

  /** Everything a closure stores: the first region, then the wrapped one if it filled the
      first completely and space is left. */
  ghost function Filled(r: Ring, fn: Filler): (d: seq<byte>)
    requires r.Valid() && r.Size() > 0 && FitsRegion(fn)
    ensures |d| <= r.FreeSpace()
  {
    var first := Min(r.FreeSpace(), r.Size() - r.TailIndex());
    if first == 0 then []
    else
      var a := fn(0, first);
      if |a| < first || first == r.FreeSpace() then a else a + fn(first, r.FreeSpace() - first)
  }

  /** How many bytes a closure consumes: from the first region, then from the wrapped one. */
  ghost function Drained(r: Ring, fn: Drainer): (n: nat)
    requires r.Valid() && r.Size() > 0 && FitsChunk(fn)
    ensures n <= r.Count()
  {
    var q := r.Contents();
    var first := Min(|q|, r.Size() - r.HeadIndex());
    if first == 0 then 0
    else
      var a := fn(0, q[..first]);
      if a < first || first == |q| then a else a + fn(first, q[first..])
  }

  /** How often a closure is called by `consume_free`, and by `consume_used`. */
  ghost function FillCalls(r: Ring, fn: Filler): (n: nat)
    requires r.Valid() && r.Size() > 0 && FitsRegion(fn)
    ensures n <= 2
  {
    var first := Min(r.FreeSpace(), r.Size() - r.TailIndex());
    if first == 0 then 0 else if |fn(0, first)| < first || first == r.FreeSpace() then 1 else 2
  }

  ghost function DrainCalls(r: Ring, fn: Drainer): (n: nat)
    requires r.Valid() && r.Size() > 0 && FitsChunk(fn)
    ensures n <= 2
  {
    var q := r.Contents();
    var first := Min(|q|, r.Size() - r.HeadIndex());
    if first == 0 then 0 else if fn(0, q[..first]) < first || first == |q| then 1 else 2
  }

  /** The offers of `consume_free`, `end` being the bytes from the tail to the end of the memory: none to a
      full buffer; all that is free, if it lies in one piece; and otherwise the rest of the memory, and,
      only if that was filled, what is free at its start. */
  lemma FreeOffers(r: Ring, fn: Filler)
    requires r.Valid() && r.Size() > 0 && FitsRegion(fn)
    ensures var free, end, d, n := r.FreeSpace(), r.Size() - r.tail % r.Size(), Filled(r, fn), FillCalls(r, fn);
            && free == r.Size() - |r.Contents()|
            && (free == 0 ==> d == [] && n == 0)
            && (0 < free <= end ==> d == fn(0, free) && n == 1)
            && (free > end && |fn(0, end)| < end ==> d == fn(0, end) && n == 1)
            && (free > end && |fn(0, end)| == end ==> d == fn(0, end) + fn(end, free - end) && n == 2)
  {
  }

  /** The offers of `consume_used` in the same way: the oldest bytes, up to the end of the memory, and the
      others only if these were all consumed. */
  lemma UsedOffers(r: Ring, fn: Drainer)
    requires r.Valid() && r.Size() > 0 && FitsChunk(fn)
    ensures var q, end, k, n := r.Contents(), r.Size() - r.head % r.Size(), Drained(r, fn), DrainCalls(r, fn);
            && (q == [] ==> k == 0 && n == 0)
            && (0 < |q| <= end ==> k == fn(0, q) && n == 1)
            && (|q| > end && fn(0, q[..end]) < end ==> k == fn(0, q[..end]) && n == 1)
            && (|q| > end && fn(0, q[..end]) == end ==> k == end + fn(end, q[end..]) && n == 2)
  {
    assert r.Contents()[..|r.Contents()|] == r.Contents();
  }

  /** The closure of `write`: copy as much of the source as fits. */
  function CopyFrom(src: seq<byte>): Filler {
    (done: nat, room: nat) =>
      if done > |src| then [] else src[done..done + Min(room, |src| - done)]
  }

  /** The closure of `read`: copy out what is still wanted. */
  function CopyOut(size: nat): Drainer {
    (done: nat, chunk: seq<byte>) => if done > size then 0 else Min(|chunk|, size - done)
  }

  lemma CopyFromFits(src: seq<byte>)
    ensures FitsRegion(CopyFrom(src))
  {
    var fn := CopyFrom(src);
    forall done: nat, room: nat
      ensures |fn(done, room)| <= room
    {
      assert fn(done, room) == if done > |src| then [] else src[done..done + Min(room, |src| - done)];
    }
  }

  /** Through `consume_free`, `write` stores exactly the longest prefix that fits. */
  lemma CopyFromFills(r: Ring, src: seq<byte>)
    requires r.Valid() && r.Size() > 0 && FitsRegion(CopyFrom(src))
    ensures Filled(r, CopyFrom(src)) == src[..Min(|src|, r.FreeSpace())]
  {
    var free := r.FreeSpace();
    CopyFromTwice(src, free, Min(free, r.Size() - r.TailIndex()));
  }

  lemma CopyFromTwice(src: seq<byte>, free: nat, first: nat)
    requires first <= free
    ensures var fn, n := CopyFrom(src), Min(|src|, free);
            && fn(0, first) == src[..Min(first, |src|)]
            && (first <= |src| ==> fn(0, first) + fn(first, free - first) == src[..n])
  {
    var n := Min(|src|, free);
    if first <= |src| {
      assert first + Min(free - first, |src| - first) == n;
      assert src[..first] + src[first..n] == src[..n];
    }
  }

  /** Through `consume_used`, `read` takes exactly what is asked for or all there is. */
  lemma CopyOutDrains(r: Ring, size: nat)
    requires r.Valid() && r.Size() > 0
    ensures FitsChunk(CopyOut(size))
    ensures Drained(r, CopyOut(size)) == Min(size, r.Count())
  {
    var fn, q := CopyOut(size), r.Contents();
    forall done: nat, chunk: seq<byte>
      ensures fn(done, chunk) <= |chunk|
    {
      assert fn(done, chunk) == if done > size then 0 else Min(|chunk|, size - done);
    }
    var first := Min(|q|, r.Size() - r.HeadIndex());
    assert fn(0, q[..first]) == Min(first, size);
    assert size >= first ==> fn(first, q[first..]) == Min(|q| - first, size - first);
  }

  lemma AppendNothing(r: Ring)
    requires r.Valid() && r.Size() > 0
    ensures r.Append([]) == r
  {
  }

  lemma AdvanceNothing(r: Ring)
    requires r.Valid()
    ensures r.AdvanceHead(0) == r
  {
  }

  /** Where the loop of `consume_free` stands after `calls` offers that were all filled. */
  ghost predicate FillProgress(r: Ring, fn: Filler, acc: seq<byte>, calls: nat)
    requires r.Valid() && r.Size() > 0 && FitsRegion(fn)
  {
    var free := r.FreeSpace();
    var first := Min(free, r.Size() - r.TailIndex());
    && |acc| <= free
    && (calls == 0 ==> acc == [])
    && (calls == 1 ==> acc == fn(0, first) && |acc| == first)
    && (calls >= 2 ==> calls == 2 && |acc| == free)
    && (|acc| == free ==> acc == Filled(r, fn) && calls == FillCalls(r, fn))
  }

  /** One more offer either ends the transfer or fills its region; the second one, at the
      start of the array, always reaches the end of the free space. */
  lemma FillStep(r: Ring, fn: Filler, acc: seq<byte>, calls: nat, chunk: nat)
    requires r.Valid() && r.Size() > 0 && FitsRegion(fn)
    requires FillProgress(r, fn, acc, calls) && |acc| < r.FreeSpace()
    requires r.Append(acc).Size() == r.Size()
    requires chunk == Min(r.FreeSpace() - |acc|, r.Size() - r.Append(acc).TailIndex())
    ensures calls < 2 && |fn(|acc|, chunk)| <= chunk
    ensures var acc' := acc + fn(|acc|, chunk);
            if |fn(|acc|, chunk)| < chunk then acc' == Filled(r, fn) && calls + 1 == FillCalls(r, fn)
            else FillProgress(r, fn, acc', calls + 1)
  {
    TailFromHead(r);
    AdvanceIndex(r.tail, |acc|, r.Size());
    var a := fn(|acc|, chunk);
    assert [] + a == a;
  }

  /** Where the loop of `consume_used` stands after `calls` offers that were all consumed. */
  ghost predicate DrainProgress(r: Ring, fn: Drainer, total: nat, calls: nat)
    requires r.Valid() && r.Size() > 0 && FitsChunk(fn)
  {
    var q := r.Contents();
    var first := Min(|q|, r.Size() - r.HeadIndex());
    && total <= |q|
    && (calls == 0 ==> total == 0)
    && (calls == 1 ==> total == first == fn(0, q[..first]))
    && (calls >= 2 ==> calls == 2 && total == |q|)
    && (total == |q| ==> total == Drained(r, fn) && calls == DrainCalls(r, fn))
  }

  lemma DrainStep(r: Ring, fn: Drainer, total: nat, calls: nat, chunk: nat)
    requires r.Valid() && r.Size() > 0 && FitsChunk(fn)
    requires DrainProgress(r, fn, total, calls) && total < r.Count()
    requires chunk == Min(r.Count() - total, r.Size() - r.AdvanceHead(total).HeadIndex())
    ensures total + chunk <= r.Count() && calls < 2
    ensures var n := fn(total, r.Contents()[total..total + chunk]);
            && n <= chunk
            && if n < chunk then total + n == Drained(r, fn) && calls + 1 == DrainCalls(r, fn)
               else DrainProgress(r, fn, total + n, calls + 1)
  {
    var q := r.Contents();
    AdvanceIndex(r.head, total, r.Size());
    if calls == 0 {
      assert q[0..chunk] == q[..chunk];
    } else {
      assert chunk == |q| - total;
      assert q[total..total + chunk] == q[total..];
    }
  }

  lemma AdvanceTwice(r: Ring, m: nat, n: nat)
    ensures r.AdvanceHead(m).AdvanceHead(n) == r.AdvanceHead(m + n)
  {
  }

  lemma NextOfQueue(q: seq<byte>, total: nat, chunk: nat, n: nat)
    requires n <= chunk && total + chunk <= |q|
    ensures q[total..][..chunk] == q[total..total + chunk]
    ensures q[..total] + q[total..][..n] == q[..total + n]
  {
  }

  /** One turn of the loop of `consume_used`. */
  lemma DrainMore(r: Ring, fn: Drainer, total: nat, calls: nat, now: Ring, chunk: nat, consumed: nat)
    requires r.Valid() && r.Size() > 0 && FitsChunk(fn)
    requires DrainProgress(r, fn, total, calls) && total < r.Count()
    requires now == r.AdvanceHead(total) && now.Valid()
    requires chunk == Min(now.Count(), now.Size() - now.HeadIndex())
    requires consumed == fn(total, now.Contents()[..chunk]) <= chunk
    ensures total + consumed <= r.Count() && calls < 2 && now.Count() == r.Count() - total
    ensures now.AdvanceHead(consumed) == r.AdvanceHead(total + consumed)
    ensures r.Contents()[..total] + now.Contents()[..consumed] == r.Contents()[..total + consumed]
    ensures if consumed < chunk then total + consumed == Drained(r, fn) && calls + 1 == DrainCalls(r, fn)
            else DrainProgress(r, fn, total + consumed, calls + 1)
  {
    AdvanceHeadContents(r, total);
    DrainStep(r, fn, total, calls, chunk);
    AdvanceTwice(r, total, consumed);
    NextOfQueue(r.Contents(), total, chunk, consumed);
  }

  class FixedSizeBuffer {
    const data: array<byte>  // m_impl
    var tail: nat            // m_tail
    var head: nat            // m_head

    // The same two counters as integers that only grow until a reset.
    ghost var tailTotal: nat
    ghost var headTotal: nat

    /** What the object holds, as a value. */
    ghost function Value(): Ring
      reads this, data
    {
      Ring(data[..], head, tail)
    }

    ghost predicate Valid()
      reads this, data
    {
      IsCapacity(data.Length) && data.Length > 0 && Value().Valid() && Tracks(Value(), headTotal, tailTotal)
    }

    constructor (size: nat)
      requires IsCapacity(size)
      ensures Valid() && fresh(data) && data.Length == size
      ensures head == 0 && tail == 0 && Value().Contents() == []
    {
      CapacityPositive(size);
      data := new byte[size];
      head, tail, headTotal, tailTotal := 0, 0, 0, 0;
    }

    method Count() returns (c: nat)
      requires Valid()
      ensures c == |Value().Contents()| == tailTotal - headTotal
    {
      WordsAnswerLikeCounters(Value(), headTotal, tailTotal);
      c := (tail - head) % WORD;
    }

    method FreeSpace() returns (n: nat)
      requires Valid()
      ensures n == data.Length - |Value().Contents()|
    {
      var c := Count();
      n := data.Length - c;
    }

    method IsEmpty() returns (b: bool)
      requires Valid()
      ensures b <==> Value().Contents() == []
      ensures b <==> headTotal == tailTotal
    {
      WordsAnswerLikeCounters(Value(), headTotal, tailTotal);
      b := head == tail;
    }

    method Reset()
      requires Valid()
      modifies this
      ensures Valid() && Value() == old(Value()).Reset()
    {
      head, tail, headTotal, tailTotal := 0, 0, 0, 0;
    }

    method AdvanceTail(n: nat)
      requires Valid() && n <= Value().FreeSpace()
      modifies this
      ensures Valid() && Value() == old(Value()).AdvanceTail(n)
      ensures tailTotal == old(tailTotal) + n && headTotal == old(headTotal)
    {
      WordsAnswerLikeCounters(Value(), headTotal, tailTotal);
      TracksAdvance(Value(), headTotal, tailTotal, n);
      tail, tailTotal := (tail + n) % WORD, tailTotal + n;
      WordsAnswerLikeCounters(Value(), headTotal, tailTotal);
    }

    method AdvanceHead(n: nat)
      requires Valid() && n <= Value().Count()
      modifies this
      ensures Valid() && Value() == old(Value()).AdvanceHead(n)
      ensures headTotal == old(headTotal) + n && tailTotal == old(tailTotal)
    {
      WordsAnswerLikeCounters(Value(), headTotal, tailTotal);
      TracksAdvance(Value(), headTotal, tailTotal, n);
      head, headTotal := (head + n) % WORD, headTotal + n;
      WordsAnswerLikeCounters(Value(), headTotal, tailTotal);
    }

    method GetFreeRegion() returns (off: nat, len: nat)
      requires Valid()
      ensures (off, len) == Value().FreeRegion()
      ensures off + len <= data.Length
      ensures len == Min(Value().FreeSpace(), data.Length - Value().TailIndex())
      ensures len > 0 ==> off == Value().TailIndex()
    {
      FreeRegionIsFirstChunk(Value());
      var size := data.Length;
      if (tail - head) % WORD >= size {
        return 0, 0;
      }
      MaskIsIndex(head, size);
      MaskIsIndex(tail, size);
      var h, t := And(head, size - 1), And(tail, size - 1);
      return t, if h > t then h - t else size - t;
    }

    method GetUsedRegion() returns (off: nat, len: nat)
      requires Valid()
      ensures (off, len) == Value().UsedRegion()
      ensures off + len <= data.Length && len <= |Value().Contents()|
      ensures len == 0 <==> |Value().Contents()| == 0 || |Value().Contents()| == data.Length
      ensures data[off..off + len] == Value().Contents()[..len]
    {
      UsedRegionIsFirstChunk(Value());
      if tail == head {
        return 0, 0;
      }
      var size := data.Length;
      MaskIsIndex(head, size);
      MaskIsIndex(tail, size);
      var h, t := And(head, size - 1), And(tail, size - 1);
      off, len := h, if h <= t then t - h else size - h;
      assert data[off..off + len] == data[..][off..off + len];
    }

    /** Copies `d` behind the tail, where it does not reach the end of the array, and
        advances the tail over it. */
    method StoreChunk(t: nat, d: seq<byte>)
      requires Valid() && t == Value().TailIndex()
      requires |d| <= Value().FreeSpace() && t + |d| <= data.Length
      modifies this, data
      ensures Valid() && Value() == old(Value()).Append(d)
      ensures tailTotal == old(tailTotal) + |d| && headTotal == old(headTotal)
    {
      ghost var r := Value();
      AppendContents(r, d);
      PokeIsSplice(r.mem, t, d);
      TracksAdvance(r, headTotal, tailTotal, |d|);
      WordsAnswerLikeCounters(r, headTotal, tailTotal);
      forall i | 0 <= i < |d| {
        data[t + i] := d[i];
      }
      assert data[..] == r.mem[..t] + d + r.mem[t + |d|..];
      tail, tailTotal := (tail + |d|) % WORD, tailTotal + |d|;
    }

    /** Offers each contiguous free region to `fn` and advances the tail by what it stored. */
    method ConsumeFree(fn: Filler) returns (total: nat, calls: nat)
      requires Valid() && FitsRegion(fn)
      modifies this, data
      ensures Valid() && Value() == old(Value()).Append(Filled(old(Value()), fn))
      ensures total == |Filled(old(Value()), fn)|
      ensures Value().Contents() == old(Value().Contents()) + Filled(old(Value()), fn)
      ensures tailTotal == old(tailTotal) + total && headTotal == old(headTotal)
      ensures calls == FillCalls(old(Value()), fn) <= 2
    {
      ghost var r := Value();
      ghost var acc: seq<byte> := [];
      calls, total := 0, 0;
      var size := data.Length;
      AppendContents(r, Filled(r, fn));
      AppendNothing(r);
      if (tail - head) % WORD == size {
        return;
      }
      var free: nat := FreeSpace();
      while free > 0
        invariant |acc| == total && total <= r.FreeSpace() && free == r.FreeSpace() - total
        invariant FillProgress(r, fn, acc, calls)
        invariant Valid() && Value() == r.Append(acc)
        invariant tailTotal == old(tailTotal) + total && headTotal == old(headTotal)
      {
        MaskIsIndex(tail, size);
        var t := And(tail, size - 1);
        var end := Min(t + free, size);
        var chunk := end - t;
        FillStep(r, fn, acc, calls, chunk);
        var stored := fn(total, chunk);
        AppendSpace(r, acc);
        AppendTwice(r, acc, stored);
        StoreChunk(t, stored);
        acc, total, calls := acc + stored, total + |stored|, calls + 1;
        if |stored| < chunk {
          return;
        }
        free := free - |stored|;
      }
    }

    /** Offers the first used region to `fn` and advances the head by what it consumed. */
    method OfferUsed(fn: Drainer, done: nat) returns (chunk: nat, consumed: nat, bytes: seq<byte>)
      requires Valid() && FitsChunk(fn)
      modifies this
      ensures chunk == Min(old(Value().Count()), data.Length - old(Value().HeadIndex()))
      ensures consumed == fn(done, old(Value().Contents())[..chunk]) <= chunk
      ensures Valid() && Value() == old(Value()).AdvanceHead(consumed)
      ensures bytes == old(Value().Contents())[..consumed]
      ensures headTotal == old(headTotal) + consumed && tailTotal == old(tailTotal)
    {
      ghost var r := Value();
      var size := data.Length;
      MaskIsIndex(head, size);
      var h := And(head, size - 1);
      var count := Count();
      var end := Min(h + count, size);
      chunk := end - h;
      WindowPrefix(r.mem, h, count, chunk);
      var region := data[h..end];
      assert region == r.mem[h..h + chunk] == r.Contents()[..chunk];
      consumed := fn(done, region);
      bytes := region[..consumed];
      AdvanceHead(consumed);
    }

    /** One turn of the loop of `consume_used`, which started from the ring `r`. */
    method DrainTurn(fn: Drainer, ghost r: Ring, total: nat, calls: nat)
      returns (chunk: nat, consumed: nat, bytes: seq<byte>)
      requires Valid() && FitsChunk(fn) && r.Valid() && r.Size() > 0
      requires DrainProgress(r, fn, total, calls) && total < r.Count() && Value() == r.AdvanceHead(total)
      modifies this
      ensures consumed <= chunk && total + consumed <= r.Count()
      ensures Valid() && Value() == r.AdvanceHead(total + consumed)
      ensures r.Contents()[..total] + bytes == r.Contents()[..total + consumed]
      ensures headTotal == old(headTotal) + consumed && tailTotal == old(tailTotal)
      ensures if consumed < chunk then total + consumed == Drained(r, fn) && calls + 1 == DrainCalls(r, fn)
              else consumed > 0 && DrainProgress(r, fn, total + consumed, calls + 1)
    {
      ghost var now := Value();
      chunk, consumed, bytes := OfferUsed(fn, total);
      DrainMore(r, fn, total, calls, now, chunk, consumed);
    }

    /** Offers each contiguous used region to `fn` and advances the head by what it consumed.
        `taken` are the bytes the closure consumed, in order. */
    method ConsumeUsed(fn: Drainer) returns (total: nat, taken: seq<byte>, calls: nat)
      requires Valid() && FitsChunk(fn)
      modifies this
      ensures Valid() && total == Drained(old(Value()), fn)
      ensures Value() == old(Value()).AdvanceHead(total)
      ensures taken == old(Value().Contents())[..total]
      ensures headTotal == old(headTotal) + total && tailTotal == old(tailTotal)
      ensures calls == DrainCalls(old(Value()), fn) <= 2
    {
      ghost var r := Value();
      total, taken, calls := 0, [], 0;
      AdvanceNothing(r);
      if tail == head {
        return;
      }
      var count: nat := Count();
      while count > 0
        invariant total <= r.Count() && count == r.Count() - total
        invariant DrainProgress(r, fn, total, calls)
        invariant Valid() && Value() == r.AdvanceHead(total)
        invariant taken == r.Contents()[..total]
        invariant headTotal == old(headTotal) + total && tailTotal == old(tailTotal)
      {
        var chunk, consumed, bytes := DrainTurn(fn, r, total, calls);
        taken, total, calls := taken + bytes, total + consumed, calls + 1;
        if consumed < chunk {
          return;
        }
        count := count - consumed;
      }
    }

    /** Stores the longest prefix of `src` that fits. */
    method Write(src: seq<byte>) returns (n: nat)
      requires Valid()
      modifies this, data
      ensures Valid() && n == Min(|src|, old(Value().FreeSpace()))
      ensures Value() == old(Value()).Append(src[..n])
      ensures Value().Contents() == old(Value().Contents()) + src[..n]
    {
      CopyFromFits(src);
      CopyFromFills(Value(), src);
      var calls;
      n, calls := ConsumeFree(CopyFrom(src));
    }

    /** Takes the oldest `size` bytes, or all there are. */
    method Read(size: nat) returns (n: nat, dst: seq<byte>)
      requires Valid()
      modifies this
      ensures Valid() && n == Min(size, old(|Value().Contents()|))
      ensures Value() == old(Value()).AdvanceHead(n)
      ensures dst == old(Value().Contents())[..n] && Value().Contents() == old(Value().Contents())[n..]
    {
      CopyOutDrains(Value(), size);
      AdvanceHeadContents(Value(), Min(size, Value().Count()));
      var calls;
      n, dst, calls := ConsumeUsed(CopyOut(size));
    }
  }
}
