/** WebSocket frames (sections 5.2 and 5.3 of RFC 6455) as samples/order_book_ws.cpp writes and
    reads them: the bytes of a frame, and what a reader makes of any bytes. */
module WebSocketModel {
  import opened Bits

  const KEYS: nat := 0x1_0000_0000  // masking keys are 32-bit words

  // ---- Bits ----

  /** OR-ing the top bit of a field sets it and changes nothing else. */
  lemma {:induction false} OrTop(y: nat, k: nat)
    requires y < 2 * Pow2(k)
    ensures Or(Pow2(k), y) == if y < Pow2(k) then Pow2(k) + y else y
  {
    if k != 0 && y != 0 {
      var h := Pow2(k - 1);
      assert Pow2(k) == 2 * h && (2 * h) / 2 == h && (2 * h) % 2 == 0;
      OrTop(y / 2, k - 1);
      assert Or(2 * h, y) == 2 * Or(h, y / 2) + y % 2;
    } else if k == 0 && y != 0 {
      assert y == 1 && Or(1, 1) == 2 * Or(0, 0) + 1;
    }
  }

  /** AND-ing with the top bit of a field tells whether it is set. */
  lemma {:induction false} AndTop(y: nat, k: nat)
    requires y < 2 * Pow2(k)
    ensures And(y, Pow2(k)) == if y < Pow2(k) then 0 else Pow2(k)
  {
    if k != 0 && y != 0 {
      var h := Pow2(k - 1);
      assert Pow2(k) == 2 * h && (2 * h) / 2 == h && (2 * h) % 2 == 0;
      AndTop(y / 2, k - 1);
      assert And(y, 2 * h) == 2 * And(y / 2, h);
    } else if k == 0 && y != 0 {
      assert y == 1 && And(1, 1) == 2 * And(0, 0) + 1;
    }
  }

  lemma LowFour(b: byte)
    ensures And(b, 0x0F) == b % 16
  {
    Pow2Values();
    AndMask(b, 4);
  }

  lemma LowSeven(b: byte)
    ensures And(b, 0x7F) == b % 128
  {
    Pow2Values();
    AndMask(b, 7);
  }

  lemma LowEight(n: nat)
    ensures And(n, 0xFF) == n % 256
  {
    Pow2Values();
    AndMask(n, 8);
  }

  lemma TopBit(b: byte)
    ensures And(b, 0x80) == if b < 128 then 0 else 128
    ensures Or(0x80, b) == if b < 128 then 128 + b else b
  {
    Pow2Values();
    AndTop(b, 7);
    OrTop(b, 7);
  }

  // ---- Writing ----

  /** The lowest `k` bytes of n, most significant first. */
  function BigEndian(n: nat, k: nat): (s: seq<byte>)
    ensures |s| == k
  {
    if k == 0 then [] else BigEndian(n / 256, k - 1) + [n % 256]
  }

  function FromBigEndian(s: seq<byte>): nat {
    if s == [] then 0 else FromBigEndian(s[..|s| - 1]) * 256 + s[|s| - 1]
  }

  function OpcodeByte(opcode: byte): (b: byte)
    ensures b == if opcode < 128 then 128 + opcode else opcode
  {
    TopBit(opcode);
    Or(0x80, opcode)
  }

  /** Seven bits of length with the mask bit in front of them. */
  function LengthByte(v: byte, masked: bool): (b: byte)
    requires v < 128
    ensures b == if masked then 128 + v else v
  {
    if masked then
      TopBit(v);
      Or(0x80, v)
    else v
  }

  /** The length in its shortest form. */
  function LengthBytes(len: nat, masked: bool): seq<byte>
    requires len < WORD
  {
    if len <= 125 then [LengthByte(len, masked)]
    else if len <= 0xFFFF then [LengthByte(126, masked)] + BigEndian(len, 2)
    else [LengthByte(127, masked)] + BigEndian(len, 8)
  }

  function Masked(payload: seq<byte>, mask: seq<byte>): (s: seq<byte>)
    requires |mask| == 4
    ensures |s| == |payload|
    ensures forall i :: 0 <= i < |s| ==> s[i] == XorByte(payload[i], mask[i % 4])
  {
    seq(|payload|, i requires 0 <= i < |payload| => XorByte(payload[i], mask[i % 4]))
  }

  function Header(opcode: byte, len: nat, masked: bool): seq<byte>
    requires len < WORD
  {
    [OpcodeByte(opcode)] + LengthBytes(len, masked)
  }

  /** A whole frame; servers send theirs without a mask. */
  function FrameBytes(opcode: byte, mask: seq<byte>, payload: seq<byte>): seq<byte>
    requires |payload| < WORD && (mask == [] || |mask| == 4)
  {
    Header(opcode, |payload|, mask != []) + mask + Covered(payload, mask)
  }

  function Covered(payload: seq<byte>, mask: seq<byte>): (s: seq<byte>)
    requires mask == [] || |mask| == 4
    ensures |s| == |payload|
  {
    if mask == [] then payload else Masked(payload, mask)
  }

  /** What the client sends. */
  function Encode(opcode: byte, key: nat, payload: seq<byte>): seq<byte>
    requires key < KEYS && |payload| < WORD
  {
    FrameBytes(opcode, BigEndian(key, 4), payload)
  }

  // ---- Reading ----

  datatype Frame = Frame(opcode: byte, payload: seq<byte>)
  datatype Result = Got(frame: Frame, rest: seq<byte>) | Short

  function Opcode(b0: byte): (r: byte)
    ensures r == b0 % 16
  {
    LowFour(b0);
    And(b0, 0x0F)
  }

  function SevenBits(b1: byte): (r: byte)
    ensures r == b1 % 128
  {
    LowSeven(b1);
    And(b1, 0x7F)
  }

  predicate HasMask(b1: byte)
    ensures HasMask(b1) <==> b1 >= 128
  {
    TopBit(b1);
    And(b1, 0x80) != 0
  }

  /** How the length is written: the value of the seven bits, or a longer form after them. */
  function LengthSize(b1: byte): nat {
    var len := SevenBits(b1);
    if len == 126 then 2 else if len == 127 then 8 else 0
  }

  function Length(b1: byte, ext: seq<byte>): nat
    requires |ext| == LengthSize(b1)
  {
    if LengthSize(b1) == 0 then SevenBits(b1) else FromBigEndian(ext)
  }

  /** Reading one frame from a stream that holds `input`. */
  function Decode(input: seq<byte>): Result {
    if |input| < 2 then Short
    else
      var b1 := input[1];
      var at := 2 + LengthSize(b1);
      if |input| < at then Short
      else
        var len := Length(b1, input[2..at]);
        var start := if HasMask(b1) then at + 4 else at;
        if |input| < start + len then Short
        else
          var payload := input[start..start + len];
          Got(Frame(Opcode(input[0]), if HasMask(b1) then Masked(payload, input[at..start]) else payload),
              input[start + len..])
  }

  // ---- Round trip ----

  lemma {:induction false} FromBigEndianBound(s: seq<byte>)
    ensures FromBigEndian(s) < Pow2(8 * |s|)
  {
    if s != [] {
      var front := s[..|s| - 1];
      FromBigEndianBound(front);
      Pow2Values();
      Pow2Add(8 * |front|, 8);
    }
  }

  /** A shift-and-or takes in the next byte. */
  lemma ShiftIn(s: seq<byte>, b: byte)
    ensures FromBigEndian(s + [b]) == Or(FromBigEndian(s) * 256, b)
  {
    Pow2Values();
    OrLow(FromBigEndian(s), b, 8);
    assert (s + [b])[..|s|] == s;
  }

  /** Reading a big-endian number gives it back. */
  lemma {:induction false} BigEndianBack(n: nat, k: nat)
    requires n < Pow2(8 * k)
    ensures FromBigEndian(BigEndian(n, k)) == n
  {
    if k != 0 {
      var s := BigEndian(n, k);
      Pow2Add(8 * (k - 1), 8);
      Pow2Values();
      assert s[..k - 1] == BigEndian(n / 256, k - 1);
      BigEndianBack(n / 256, k - 1);
    }
  }

  lemma TwoBytesBack(len: nat)
    requires len <= 0xFFFF
    ensures FromBigEndian(BigEndian(len, 2)) == len
  {
    Pow2Values();
    BigEndianBack(len, 2);
  }

  lemma EightBytesBack(len: nat)
    requires len < WORD
    ensures FromBigEndian(BigEndian(len, 8)) == len
  {
    Pow2Values();
    BigEndianBack(len, 8);
  }

  /** The bytes `s` after the first of a header say that the payload has `len` bytes. */
  ghost predicate Says(s: seq<byte>, len: nat, masked: bool) {
    s != [] && |s| == 1 + LengthSize(s[0]) && Length(s[0], s[1..]) == len && HasMask(s[0]) == masked
  }

  lemma ExtensionSays(s: seq<byte>, v: byte, ext: seq<byte>, len: nat, masked: bool)
    requires (v == 126 && |ext| == 2) || (v == 127 && |ext| == 8)
    requires FromBigEndian(ext) == len && s == [LengthByte(v, masked)] + ext
    ensures Says(s, len, masked)
  {
    assert s[1..] == ext;
  }

  /** The length that a header gives is the one it was made from. */
  lemma LengthBack(len: nat, masked: bool)
    requires len < WORD
    ensures Says(LengthBytes(len, masked), len, masked)
  {
    var s := LengthBytes(len, masked);
    if len > 0xFFFF {
      EightBytesBack(len);
      ExtensionSays(s, 127, BigEndian(len, 8), len, masked);
    } else if len > 125 {
      TwoBytesBack(len);
      ExtensionSays(s, 126, BigEndian(len, 2), len, masked);
    }
  }

  /** Masking twice gives the payload back. */
  lemma MaskTwice(payload: seq<byte>, mask: seq<byte>)
    requires |mask| == 4
    ensures Masked(Masked(payload, mask), mask) == payload
  {
  }

  lemma OpcodeBack(opcode: byte)
    ensures Opcode(OpcodeByte(opcode)) == opcode % 16
  {
  }

  lemma DecodeParts(input: seq<byte>, ext: seq<byte>, mask: seq<byte>, body: seq<byte>, suffix: seq<byte>)
    requires |input| >= 2 && input == input[..2] + ext + mask + body + suffix
    requires |ext| == LengthSize(input[1]) && |mask| == (if HasMask(input[1]) then 4 else 0)
    requires |body| == Length(input[1], ext)
    ensures Decode(input) ==
      Got(Frame(Opcode(input[0]), if HasMask(input[1]) then Masked(body, mask) else body), suffix)
  {
    var at := 2 + |ext|;
    var start := at + |mask|;
    assert input[2..at] == ext;
    assert input[at..start] == mask;
    assert input[start..start + |body|] == body;
    assert input[start + |body|..] == suffix;
  }

  lemma DecodeSays(input: seq<byte>, b0: byte, lb: seq<byte>, mask: seq<byte>, payload: seq<byte>, suffix: seq<byte>)
    requires (mask == [] || |mask| == 4) && Says(lb, |payload|, mask != [])
    requires input == [b0] + lb + mask + Covered(payload, mask) + suffix
    ensures Decode(input) == Got(Frame(Opcode(b0), payload), suffix)
  {
    assert input[..2] == [b0, lb[0]];
    assert [b0] + lb == input[..2] + lb[1..];
    DecodeParts(input, lb[1..], mask, Covered(payload, mask), suffix);
    if mask != [] {
      MaskTwice(payload, mask);
    }
  }

  /** Reading a frame, masked or not, from a stream that goes on with any suffix gives the
      opcode's low four bits and the payload, and leaves exactly the suffix. */
  lemma RoundTrip(opcode: byte, mask: seq<byte>, payload: seq<byte>, suffix: seq<byte>)
    requires |payload| < WORD && (mask == [] || |mask| == 4)
    ensures Decode(FrameBytes(opcode, mask, payload) + suffix) == Got(Frame(opcode % 16, payload), suffix)
  {
    var input := FrameBytes(opcode, mask, payload) + suffix;
    var lb := LengthBytes(|payload|, mask != []);
    LengthBack(|payload|, mask != []);
    DecodeSays(input, OpcodeByte(opcode), lb, mask, payload, suffix);
    OpcodeBack(opcode);
  }

  lemma FourBits(opcode: byte)
    ensures opcode % 16 == opcode <==> opcode < 16
  {
  }

  /** For the client's own frames: the same frame comes back exactly when the opcode has four
      bits. */
  lemma ClientRoundTrip(opcode: byte, key: nat, payload: seq<byte>, suffix: seq<byte>)
    requires key < KEYS && |payload| < WORD
    ensures Decode(Encode(opcode, key, payload) + suffix) == Got(Frame(opcode, payload), suffix)
      <==> opcode < 16
  {
    RoundTrip(opcode, BigEndian(key, 4), payload, suffix);
    FourBits(opcode);
  }

  /** The length form is the shortest one: no accepted bytes with the same payload length and
      the same choice of masking are fewer. */
  lemma ShortestForm(input: seq<byte>, opcode: byte, mask: seq<byte>, payload: seq<byte>)
    requires Decode(input).Got? && |Decode(input).frame.payload| == |payload| < WORD
    requires mask == [] || |mask| == 4
    requires HasMask(input[1]) <==> mask != []
    ensures |input| - |Decode(input).rest| >= |FrameBytes(opcode, mask, payload)|
  {
    Pow2Values();
    FromBigEndianBound(input[2..2 + LengthSize(input[1])]);
  }

  /** What fits the staging buffer. */
  lemma FitsStaging(opcode: byte, key: nat, payload: seq<byte>)
    requires key < KEYS && |payload| < WORD
    ensures |Encode(opcode, key, payload)| <= 2048 <==> |payload| <= 2040
  {
  }
}
