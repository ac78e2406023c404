/** The value of a fixed_size_buffer: a power-of-two byte array indexed by two 64-bit
    counters that are never reduced, only masked on access. */
module RingValue {
  import opened Bits

  /** A capacity the word arithmetic supports: a power of two that divides 2^64. */
  ghost predicate IsCapacity(size: nat) {
    exists k: nat :: k < 64 && size == Pow2(k)
  }

  // buffer_size of the source.
  const BUFFER_SIZE: nat := 512 * 1024

  lemma BufferSizeIsCapacity()
    ensures IsCapacity(BUFFER_SIZE)
  {
    Pow2Values();
    Pow2Add(16, 3);
    assert BUFFER_SIZE == Pow2(19);
  }

  /** Index `x` of a circular array of length `s`, for x below 2 * s. */
  function Wrap(x: nat, s: nat): nat {
    if x < s then x else x - s
  }

  /** The `c` bytes that start at index `h` and wrap round the end. */
  ghost function Window(mem: seq<byte>, h: nat, c: nat): (w: seq<byte>)
    requires h < |mem| && c <= |mem|
    ensures |w| == c
  {
    seq(c, i requires 0 <= i < c => mem[Wrap(h + i, |mem|)])
  }

  /** `mem` with `d` copied over the bytes that start at index `t` and wrap round the end. */
  ghost function Splice(mem: seq<byte>, t: nat, d: seq<byte>): (m: seq<byte>)
    requires t < |mem| && |d| <= |mem|
    ensures |m| == |mem|
  {
    seq(|mem|, j requires 0 <= j < |mem| =>
      var k := if j >= t then j - t else j + |mem| - t;
      if k < |d| then d[k] else mem[j])
  }

  datatype Ring = Ring(mem: seq<byte>, head: nat, tail: nat) {

    function Size(): nat { |mem| }

    /** `m_tail - m_head` in size_t arithmetic. */
    function Count(): nat { (tail - head) % WORD }

    ghost predicate Valid() {
      IsCapacity(Size()) && head < WORD && tail < WORD && Count() <= Size()
    }

    function FreeSpace(): nat
      requires Count() <= Size()
    {
      Size() - Count()
    }

    function HeadIndex(): nat
      requires Size() > 0
    {
      head % Size()
    }

    function TailIndex(): nat
      requires Size() > 0
    {
      tail % Size()
    }

    /** The bytes held, oldest first. */
    ghost function Contents(): (q: seq<byte>)
      requires Valid()
      ensures |q| == Count()
    {
      CapacityPositive(Size());
      Window(mem, HeadIndex(), Count())
    }

    /** get_free_region: offset and length of the region lent to an asynchronous receive. */
    function FreeRegion(): (nat, nat)
      requires Size() > 0
    {
      if Count() >= Size() then (0, 0)
      else
        var h, t := HeadIndex(), TailIndex();
        (t, if h > t then h - t else Size() - t)
    }

    /** get_used_region: offset and length of the region lent to an asynchronous send. */
    function UsedRegion(): (nat, nat)
      requires Size() > 0
    {
      if tail == head then (0, 0)
      else
        var h, t := HeadIndex(), TailIndex();
        (h, if h <= t then t - h else Size() - h)
    }

    function AdvanceTail(n: nat): Ring { this.(tail := (tail + n) % WORD) }

    function AdvanceHead(n: nat): Ring { this.(head := (head + n) % WORD) }

    function Reset(): Ring { this.(head := 0, tail := 0) }

    /** The memory after `d` is copied to offset `at`. */
    function Poke(at: nat, d: seq<byte>): Ring
      requires at + |d| <= Size()
    {
      this.(mem := mem[..at] + d + mem[at + |d|..])
    }

    /** The ring after `d` is stored behind the tail, wrapping round the end of the array. */
    ghost function Append(d: seq<byte>): Ring
      requires Valid() && |d| <= FreeSpace()
    {
      CapacityPositive(Size());
      Ring(Splice(mem, TailIndex(), d), head, (tail + |d|) % WORD)
    }
  }

  lemma CapacityPositive(size: nat)
    requires IsCapacity(size)
    ensures 0 < size < WORD
  {
    var k: nat :| k < 64 && size == Pow2(k);
    Pow2Add(k, 64 - k);
    Pow2Values();
    assert Pow2(64 - k) >= 2;
    MulAtLeast(size, Pow2(64 - k) - 1);
  }

  lemma CapacityDivides(size: nat) returns (q: nat)
    requires IsCapacity(size)
    ensures size * q == WORD
  {
    var k: nat :| k < 64 && size == Pow2(k);
    Pow2Add(k, 64 - k);
    Pow2Values();
    q := Pow2(64 - k);
  }

  /** Reducing a counter modulo 2^64 does not change the index it is masked to. */
  lemma WordIndex(x: nat, size: nat)
    requires IsCapacity(size) && size > 0
    ensures (x % WORD) % size == x % size
  {
    var q := CapacityDivides(size);
    var d, r := x / WORD, x % WORD;
    assert x == size * (q * d) + r by {
      assert x == WORD * d + r;
      assert size * (q * d) == (size * q) * d;
    }
    ModOfSum(size, q * d, r);
  }

  /** Advancing a counter moves its masked index forward, wrapping at most once. */
  lemma AdvanceIndex(p: nat, n: nat, size: nat)
    requires IsCapacity(size) && 0 < size && n <= size
    ensures ((p + n) % WORD) % size == Wrap(p % size + n, size)
  {
    WordIndex(p + n, size);
    IndexStep(p, n, size);
  }

  lemma IndexStep(p: nat, n: nat, size: nat)
    requires 0 < size && n <= size
    ensures (p + n) % size == Wrap(p % size + n, size)
  {
    var q, o := p / size, p % size;
    assert p == size * q + o;
    if o + n < size {
      DivModUnique(size, q, o + n);
    } else {
      var o' := o + n - size;
      assert p + n == size * (q + 1) + o' by {
        assert size * (q + 1) == size * q + size;
      }
      DivModUnique(size, q + 1, o');
    }
  }

  /** The masked tail sits `Count()` places behind the masked head. */
  lemma TailFromHead(r: Ring)
    requires r.Valid()
    ensures r.Size() > 0
    ensures var s, h, c := r.Size(), r.HeadIndex(), r.Count();
            r.TailIndex() == Wrap(h + c, s)
  {
    CapacityPositive(r.Size());
    assert r.tail == (r.head + r.Count()) % WORD;
    AdvanceIndex(r.head, r.Count(), r.Size());
  }

  /** `x & buffer_mask` is the array index: the mask is one less than a power of two. */
  lemma MaskIsIndex(x: nat, size: nat)
    requires IsCapacity(size) && size > 0
    ensures And(x, size - 1) == x % size
  {
    var k: nat :| k < 64 && size == Pow2(k);
    AndMask(x, k);
  }

  // ---- The ring is a bounded FIFO queue ----

  lemma WindowSplice(mem: seq<byte>, h: nat, c: nat, d: seq<byte>)
    requires h < |mem| && c + |d| <= |mem|
    ensures Window(Splice(mem, Wrap(h + c, |mem|), d), h, c + |d|) == Window(mem, h, c) + d
  {
    var w := Window(Splice(mem, Wrap(h + c, |mem|), d), h, c + |d|);
    forall i | 0 <= i < c + |d|
      ensures w[i] == (Window(mem, h, c) + d)[i]
    {
      var t, j := Wrap(h + c, |mem|), Wrap(h + i, |mem|);
      assert i < c || (if j >= t then j - t else j + |mem| - t) == i - c;
      assert Splice(mem, t, d)[j] == if i < c then mem[j] else d[i - c];
    }
  }

  lemma WindowDrop(mem: seq<byte>, h: nat, c: nat, n: nat)
    requires h < |mem| && n <= c <= |mem|
    ensures Window(mem, Wrap(h + n, |mem|), c - n) == Window(mem, h, c)[n..]
  {
    var w := Window(mem, Wrap(h + n, |mem|), c - n);
    forall i | 0 <= i < c - n
      ensures w[i] == Window(mem, h, c)[n..][i]
    {
      assert Wrap(Wrap(h + n, |mem|) + i, |mem|) == Wrap(h + (n + i), |mem|);
    }
  }

  lemma CountGrows(head: nat, tail: nat, n: nat, size: nat)
    requires head < WORD && tail < WORD && (tail - head) % WORD + n <= size < WORD
    ensures ((tail + n) % WORD - head) % WORD == (tail - head) % WORD + n
  {
  }

  lemma CountShrinks(head: nat, tail: nat, n: nat)
    requires head < WORD && tail < WORD && n <= (tail - head) % WORD
    ensures (tail - (head + n) % WORD) % WORD == (tail - head) % WORD - n
  {
  }

  /** Appending adds exactly the given bytes at the back. */
  lemma AppendContents(r: Ring, d: seq<byte>)
    requires r.Valid() && |d| <= r.FreeSpace()
    ensures r.Append(d).Valid()
    ensures r.Append(d).Contents() == r.Contents() + d
  {
    TailFromHead(r);
    CapacityPositive(r.Size());
    CountGrows(r.head, r.tail, |d|, r.Size());
    var r' := r.Append(d);
    assert r'.Valid();
    WindowSplice(r.mem, r.HeadIndex(), r.Count(), d);
  }

  /** Advancing the head drops exactly the oldest bytes. */
  lemma AdvanceHeadContents(r: Ring, n: nat)
    requires r.Valid() && n <= r.Count()
    ensures r.AdvanceHead(n).Valid()
    ensures r.AdvanceHead(n).Contents() == r.Contents()[n..]
  {
    CapacityPositive(r.Size());
    AdvanceIndex(r.head, n, r.Size());
    CountShrinks(r.head, r.tail, n);
    var r' := r.AdvanceHead(n);
    assert r'.Valid();
    WindowDrop(r.mem, r.HeadIndex(), r.Count(), n);
  }

  lemma AdvanceTailValid(r: Ring, n: nat)
    requires r.Valid() && n <= r.FreeSpace()
    ensures r.AdvanceTail(n).Valid()
  {
    CapacityPositive(r.Size());
    CountGrows(r.head, r.tail, n, r.Size());
  }

  lemma ResetContents(r: Ring)
    requires r.Valid()
    ensures r.Reset().Valid() && r.Reset().Contents() == []
  {
  }

  // ---- Regions lent to the kernel ----

  /** The free region is the first chunk a closure would be offered: it starts at the tail
      and runs to the end of the free space or of the array. It is empty only when full. */
  lemma FreeRegionIsFirstChunk(r: Ring)
    requires r.Valid() && r.Size() > 0
    ensures var (off, len) := r.FreeRegion();
            && len == Min(r.FreeSpace(), r.Size() - r.TailIndex())
            && (len > 0 ==> off == r.TailIndex())
            && (len == 0 <==> r.Count() == r.Size())
            && off + len <= r.Size()
  {
    TailFromHead(r);
  }

  /** The used region is the first chunk a closure would be offered, holding the oldest
      bytes, except that a completely full ring lends nothing. */
  lemma UsedRegionIsFirstChunk(r: Ring)
    requires r.Valid() && r.Size() > 0
    ensures var (off, len) := r.UsedRegion();
            && off + len <= r.Size() && len <= r.Count()
            && (len == 0 <==> r.Count() == 0 || r.Count() == r.Size())
            && (len > 0 ==> off == r.HeadIndex() && len == Min(r.Count(), r.Size() - off))
            && r.mem[off..off + len] == r.Contents()[..len]
  {
    TailFromHead(r);
    CountZero(r.head, r.tail);
    var (off, len) := r.UsedRegion();
    if len > 0 {
      WindowPrefix(r.mem, off, r.Count(), len);
    }
  }

  lemma CountZero(head: nat, tail: nat)
    requires head < WORD && tail < WORD
    ensures (tail - head) % WORD == 0 <==> tail == head
  {
  }

  lemma WindowPrefix(mem: seq<byte>, h: nat, c: nat, len: nat)
    requires h < |mem| && len <= c <= |mem| && h + len <= |mem|
    ensures mem[h..h + len] == Window(mem, h, c)[..len]
  {
    forall i | 0 <= i < len
      ensures mem[h..h + len][i] == Window(mem, h, c)[..len][i]
    {
      assert Window(mem, h, c)[i] == mem[Wrap(h + i, |mem|)];
    }
  }

  lemma PokeNothing(r: Ring, at: nat)
    requires r.Valid() && r.Size() > 0 && at <= r.Size()
    ensures r.Poke(at, []) == r && r.AdvanceTail(0) == r && r.Append([]) == r
  {
    assert r.Poke(at, []).mem == r.mem;
    assert Splice(r.mem, r.TailIndex(), []) == r.mem;
  }

  lemma PokeAtTail(r: Ring, d: seq<byte>)
    requires r.Valid() && r.Size() > 0 && |d| <= r.FreeSpace() && r.TailIndex() + |d| <= r.Size()
    ensures var p := r.Poke(r.TailIndex(), d);
            p.Valid() && p.Contents() == r.Contents() && p.AdvanceTail(|d|) == r.Append(d)
  {
    PokeIsSplice(r.mem, r.TailIndex(), d);
    SpliceUnseen(r, d);
  }

  /** Bytes stored behind the tail are not yet part of the queue. */
  lemma SpliceUnseen(r: Ring, d: seq<byte>)
    requires r.Valid() && r.Size() > 0 && |d| <= r.FreeSpace()
    ensures var p := r.(mem := Splice(r.mem, r.TailIndex(), d)); p.Valid() && p.Contents() == r.Contents()
  {
    TailFromHead(r);
    WindowAfterPoke(r.mem, r.HeadIndex(), r.Count(), d);
  }

  /** Bytes received into the lent region stay invisible until the tail is advanced over
      them, and are then exactly what is appended. */
  lemma ReceiveThenAdvance(r: Ring, d: seq<byte>)
    requires r.Valid() && r.Size() > 0 && |d| <= r.FreeRegion().1
    ensures r.FreeRegion().0 + |d| <= r.Size() && |d| <= r.FreeSpace()
    ensures var p := r.Poke(r.FreeRegion().0, d);
            && p.Valid() && p.Contents() == r.Contents() && p.FreeRegion() == r.FreeRegion()
            && p.AdvanceTail(|d|) == r.Append(d)
  {
    FreeRegionIsFirstChunk(r);
    if d == [] {
      PokeNothing(r, r.FreeRegion().0);
    } else {
      PokeAtTail(r, d);
    }
  }

  lemma PokeIsSplice(mem: seq<byte>, t: nat, d: seq<byte>)
    requires t < |mem| && t + |d| <= |mem|
    ensures mem[..t] + d + mem[t + |d|..] == Splice(mem, t, d)
  {
  }

  lemma WindowAfterPoke(mem: seq<byte>, h: nat, c: nat, d: seq<byte>)
    requires h < |mem| && c + |d| <= |mem|
    ensures Window(Splice(mem, Wrap(h + c, |mem|), d), h, c) == Window(mem, h, c)
  {
    WindowSplice(mem, h, c, d);
    var m := Splice(mem, Wrap(h + c, |mem|), d);
    assert Window(m, h, c) == Window(m, h, c + |d|)[..c];
  }

  lemma AppendSpace(r: Ring, d: seq<byte>)
    requires r.Valid() && |d| <= r.FreeSpace()
    ensures r.Size() > 0 && r.Append(d).Valid() && r.Append(d).Size() == r.Size()
    ensures r.Append(d).Count() == r.Count() + |d|
    ensures r.Append(d).TailIndex() == Wrap(r.TailIndex() + |d|, r.Size())
  {
    CapacityPositive(r.Size());
    CountGrows(r.head, r.tail, |d|, r.Size());
    AdvanceIndex(r.tail, |d|, r.Size());
  }

  /** Bytes placed past the first chunk continue it: two stores are one. */
  lemma AppendTwice(r: Ring, d: seq<byte>, e: seq<byte>)
    requires r.Valid() && |d| + |e| <= r.FreeSpace()
    requires r.Append(d).Valid() && |e| <= r.Append(d).FreeSpace()
    ensures r.Append(d).Append(e) == r.Append(d + e)
  {
    AppendSpace(r, d);
    StoredTwice(r, r.Append(d), d, e);
  }

  lemma StoredTwice(r: Ring, a: Ring, d: seq<byte>, e: seq<byte>)
    requires r.Size() > 0 && |d| + |e| <= r.Size() == a.Size()
    requires a == Ring(Splice(r.mem, r.TailIndex(), d), r.head, (r.tail + |d|) % WORD)
    requires a.TailIndex() == Wrap(r.TailIndex() + |d|, r.Size())
    ensures Ring(Splice(a.mem, a.TailIndex(), e), a.head, (a.tail + |e|) % WORD)
         == Ring(Splice(r.mem, r.TailIndex(), d + e), r.head, (r.tail + |d + e|) % WORD)
  {
    SpliceTwice(r.mem, r.TailIndex(), d, e);
    WordAddTwice(r.tail, |d|, |e|);
  }

  lemma WordAddTwice(x: nat, m: nat, n: nat)
    ensures ((x + m) % WORD + n) % WORD == (x + (m + n)) % WORD
  {
  }

  lemma SpliceTwice(mem: seq<byte>, t: nat, d: seq<byte>, e: seq<byte>)
    requires t < |mem| && |d| + |e| <= |mem|
    ensures Splice(Splice(mem, t, d), Wrap(t + |d|, |mem|), e) == Splice(mem, t, d + e)
  {
  }

  // ---- Word counters against counters that only grow ----

  /** `r`'s two words are `h` and `t` reduced modulo 2^64. */
  ghost predicate Tracks(r: Ring, h: nat, t: nat) {
    h <= t <= h + r.Size() && r.head == h % WORD && r.tail == t % WORD
  }

  /** Every question the buffer asks of its words has the answer the growing counters give. */
  lemma WordsAnswerLikeCounters(r: Ring, h: nat, t: nat)
    requires IsCapacity(r.Size()) && r.Size() > 0 && Tracks(r, h, t)
    ensures r.Valid() && r.Count() == t - h
    ensures r.head == r.tail <==> h == t
    ensures r.HeadIndex() == h % r.Size() && r.TailIndex() == t % r.Size()
  {
    CapacityPositive(r.Size());
    WordDifference(h, t);
    WordIndex(h, r.Size());
    WordIndex(t, r.Size());
  }

  /** The correspondence survives every advance, however often the words have wrapped. */
  lemma TracksAdvance(r: Ring, h: nat, t: nat, n: nat)
    requires Tracks(r, h, t)
    ensures n <= r.Size() - (t - h) ==> Tracks(r.AdvanceTail(n), h, t + n)
    ensures n <= t - h ==> Tracks(r.AdvanceHead(n), h + n, t)
  {
    WordAddTwice(0, h, n);
    WordAddTwice(0, t, n);
  }

  lemma WordDifference(h: nat, t: nat)
    requires h <= t < h + WORD
    ensures (t % WORD - h % WORD) % WORD == t - h
  {
  }
}
