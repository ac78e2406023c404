/** buffer_pool: emptied buffers kept for reuse, taken from and given to the back. */
module Pool {
  import opened RingValue
  import opened Buffer

  class BufferPool {
    const size: nat               // capacity of the buffers made here
    var impl: seq<FixedSizeBuffer>  // m_impl

    constructor (size: nat)
      ensures this.size == size && impl == []
    {
      this.size := size;
      impl := [];
    }

    method Allocate() returns (b: FixedSizeBuffer)
      requires IsCapacity(size)
      modifies this`impl
      ensures old(impl) != [] ==> b == old(impl)[|old(impl)| - 1] && impl == old(impl)[..|old(impl)| - 1]
      ensures old(impl) == [] ==>
                && impl == [] && fresh(b) && fresh(b.data)
                && b.Valid() && b.data.Length == size && b.head == 0 == b.tail
    {
      if impl != [] {
        b := impl[|impl| - 1];
        impl := impl[..|impl| - 1];
      } else {
        b := new FixedSizeBuffer(size);
      }
    }

    method Redeem(b: FixedSizeBuffer)
      requires b.Valid()
      modifies this`impl, b
      ensures impl == old(impl) + [b]
      ensures b.Valid() && b.Value() == old(b.Value()).Reset()
    {
      b.Reset();
      impl := impl + [b];
    }

    /** Adds `count` buffers behind the ones there; each is new, empty and has its own memory. */
    method Prepool(count: nat)
      requires IsCapacity(size)
      modifies this`impl
      ensures |impl| == |old(impl)| + count && impl[..|old(impl)|] == old(impl)
      ensures forall i :: |old(impl)| <= i < |impl| ==>
                && fresh(impl[i]) && fresh(impl[i].data) && impl[i].Valid()
                && impl[i].data.Length == size && impl[i].head == 0 == impl[i].tail
      ensures forall i, j :: |old(impl)| <= i < j < |impl| ==> impl[i] != impl[j] && impl[i].data != impl[j].data
    {
      for n := 0 to count
        invariant |impl| == |old(impl)| + n && impl[..|old(impl)|] == old(impl)
        invariant forall i :: |old(impl)| <= i < |impl| ==>
                    && fresh(impl[i]) && fresh(impl[i].data) && impl[i].Valid()
                    && impl[i].data.Length == size && impl[i].head == 0 == impl[i].tail
        invariant forall i, j :: |old(impl)| <= i < j < |impl| ==> impl[i] != impl[j] && impl[i].data != impl[j].data
      {
        var b := new FixedSizeBuffer(size);
        impl := impl + [b];
      }
    }

    /** Deletes every pooled buffer; `deleted` lists the deletions in order. */
    method Drain() returns (deleted: seq<FixedSizeBuffer>)
      modifies this`impl
      ensures impl == [] && deleted == old(impl)
    {
      deleted := [];
      var n := 0;
      while n < |impl|
        invariant n <= |impl| && impl == old(impl) && deleted == impl[..n]
      {
        deleted := deleted + [impl[n]];
        n := n + 1;
      }
      impl := [];
    }
  }
}
