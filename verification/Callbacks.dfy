/** What a callback makes of the bytes that its buffer holds, as bytes and not as a ring. */
module Callbacks {
  import opened Bits
  import opened LoopModel
  import opened RingValue

  /** The bytes held after a callback's uses of a buffer of `size` bytes that held `q`: a write is cut to
      the room there is, a read takes the oldest bytes. */
  function HeldAfter(q: seq<byte>, size: nat, ops: seq<BufferOp>): seq<byte>
    decreases |ops|
  {
    if ops == [] then q
    else
      match ops[0]
      case WriteOp(src) =>
        var fits := if |q| + |src| <= size then src else if |q| <= size then src[..size - |q|] else [];
        HeldAfter(q + fits, size, ops[1..])
      case ReadOp(n) => HeldAfter(if n <= |q| then q[n..] else [], size, ops[1..])
      case ResetOp => HeldAfter([], size, ops[1..])
  }

  function WroteOne(q: seq<byte>, size: nat, o: BufferOp): seq<byte> {
    if !o.WriteOp? || |q| > size then [] else o.src[..Min(|o.src|, size - |q|)]
  }

  function TookOne(q: seq<byte>, o: BufferOp): seq<byte> {
    match o
    case WriteOp(_) => []
    case ReadOp(n) => q[..Min(n, |q|)]
    case ResetOp => q
  }

  /** The bytes that the callback wrote into the buffer. */
  function Wrote(q: seq<byte>, size: nat, ops: seq<BufferOp>): seq<byte>
    decreases |ops|
  {
    if ops == [] then []
    else WroteOne(q, size, ops[0]) + Wrote(HeldAfter(q, size, [ops[0]]), size, ops[1..])
  }

  /** The bytes that it took out of it, by reading or by a reset. */
  function Took(q: seq<byte>, size: nat, ops: seq<BufferOp>): seq<byte>
    decreases |ops|
  {
    if ops == [] then []
    else TookOne(q, ops[0]) + Took(HeldAfter(q, size, [ops[0]]), size, ops[1..])
  }

  lemma HeldStep(q: seq<byte>, size: nat, ops: seq<BufferOp>)
    requires ops != []
    ensures HeldAfter(q, size, ops) == HeldAfter(HeldAfter(q, size, [ops[0]]), size, ops[1..])
  {
    assert [ops[0]][1..] == [];
  }

  lemma OneUse(q: seq<byte>, size: nat, o: BufferOp)
    requires |q| <= size
    ensures |HeldAfter(q, size, [o])| <= size
    ensures match o
            case WriteOp(src) => HeldAfter(q, size, [o]) == q + src[..Min(|src|, size - |q|)]
            case ReadOp(n) => HeldAfter(q, size, [o]) == q[Min(n, |q|)..]
            case ResetOp => HeldAfter(q, size, [o]) == []
    ensures q + WroteOne(q, size, o) == TookOne(q, o) + HeldAfter(q, size, [o])
  {
    assert [o][1..] == [];
    if o.WriteOp? {
      assert o.src[..|o.src|] == o.src;
    }
  }

  lemma FlowTwice(q: seq<byte>, w: seq<byte>, t: seq<byte>, r: seq<byte>, w': seq<byte>, t': seq<byte>, r': seq<byte>)
    requires q + w == t + r && r + w' == t' + r'
    ensures q + (w + w') == t + t' + r'
  {
    assert q + (w + w') == t + r + w' == t + (t' + r');
  }

  /** What was held, followed by what the callback wrote, is what it took, followed by what it left. */
  lemma {:induction false} CallbackFlow(q: seq<byte>, size: nat, ops: seq<BufferOp>)
    requires |q| <= size
    ensures |HeldAfter(q, size, ops)| <= size
    ensures q + Wrote(q, size, ops) == Took(q, size, ops) + HeldAfter(q, size, ops)
    decreases |ops|
  {
    if ops != [] {
      var q1 := HeldAfter(q, size, [ops[0]]);
      OneUse(q, size, ops[0]);
      HeldStep(q, size, ops);
      CallbackFlow(q1, size, ops[1..]);
      FlowTwice(q, WroteOne(q, size, ops[0]), TookOne(q, ops[0]), q1,
        Wrote(q1, size, ops[1..]), Took(q1, size, ops[1..]), HeldAfter(q, size, ops));
    }
  }

  lemma TouchHeld<B>(l: Local<B>, o: BufferOp)
    requires l.ring.Valid()
    ensures var l', q := Touch(l, o), l.ring.Contents();
            && l'.ring.Valid() && l'.ring.Size() == l.ring.Size()
            && l'.ring.Contents() == HeldAfter(q, l.ring.Size(), [o])
            && l'.wire.entered == l.wire.entered + WroteOne(q, l.ring.Size(), o)
            && l'.wire.left == l.wire.left + TookOne(q, o)
  {
    TouchValid(l, o);
    OneUse(l.ring.Contents(), l.ring.Size(), o);
    match o
    case WriteOp(src) => AppendContents(l.ring, src[..Min(|src|, l.ring.FreeSpace())]);
    case ReadOp(n) => AdvanceHeadContents(l.ring, Min(n, l.ring.Count()));
    case ResetOp => ResetContents(l.ring);
  }

  /** The buffer as the ring that a callback leaves holds exactly these bytes, and its stream has exactly
      these bytes more. */
  lemma {:induction false} CallbackHeld<B>(l: Local<B>, ops: seq<BufferOp>)
    requires l.ring.Valid()
    ensures var l', q := Callback(l, ops), l.ring.Contents();
            && l'.ring.Valid() && l'.ring.Contents() == HeldAfter(q, l.ring.Size(), ops)
            && l'.wire.entered == l.wire.entered + Wrote(q, l.ring.Size(), ops)
            && l'.wire.left == l.wire.left + Took(q, l.ring.Size(), ops)
    decreases |ops|
  {
    hide Touch, WroteOne, TookOne;
    if ops != [] {
      TouchHeld(l, ops[0]);
      HeldStep(l.ring.Contents(), l.ring.Size(), ops);
      CallbackHeld(Touch(l, ops[0]), ops[1..]);
    }
  }
}
