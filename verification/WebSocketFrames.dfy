/** What a frame is, byte by byte (section 5.2 of RFC 6455): the writer's bytes are one, and the reader
    takes exactly the frames. */
module WebSocketFrames {
  import opened Bits
  import opened WebSocketModel

  /** How many bytes of length follow the second byte of a frame, by its low seven bits. */
  function Extension(v: nat): nat { if v == 126 then 2 else if v == 127 then 8 else 0 }

  /** The length that a frame gives, most significant byte first. */
  function GivenLength(f: seq<byte>): nat
    requires |f| >= 2 && |f| >= 2 + Extension(f[1] as int % 128)
  {
    match f[1] as int % 128
    case 126 => f[2] as int * 0x100 + f[3] as int
    case 127 =>
      f[2] as int * 0x100_0000_0000_0000 + f[3] as int * 0x1_0000_0000_0000 + f[4] as int * 0x100_0000_0000
      + f[5] as int * 0x1_0000_0000 + f[6] as int * 0x100_0000 + f[7] as int * 0x1_0000 + f[8] as int * 0x100
      + f[9] as int
    case v => v
  }

  /** The bytes are one frame: the opcode in the low four bits of the first byte; the top bit of the second
      for a mask, which comes behind the length; the payload to the end, each byte under its mask byte. */
  ghost predicate IsFrame(f: seq<byte>, opcode: byte, payload: seq<byte>) {
    |f| >= 2 && f[0] as int % 16 == opcode as int &&
    var at := 2 + Extension(f[1] as int % 128);
    |f| >= at && |payload| == GivenLength(f) &&
    if f[1] < 128 then f[at..] == payload
    else
      && |f| == at + 4 + |payload|
      && forall i :: 0 <= i < |payload| ==> payload[i] == XorByte(f[at + 4 + i], f[at + i % 4])
  }

  /** A big-endian number of eight bytes, written out. */
  lemma EightBytes(s: seq<byte>)
    requires |s| == 8
    ensures FromBigEndian(s) ==
      s[0] as int * 0x100_0000_0000_0000 + s[1] as int * 0x1_0000_0000_0000 + s[2] as int * 0x100_0000_0000
      + s[3] as int * 0x1_0000_0000 + s[4] as int * 0x100_0000 + s[5] as int * 0x1_0000 + s[6] as int * 0x100
      + s[7] as int
  {
    FourBytes(s[..4]);
    Last(s);
    Last(s[..7]);
    Last(s[..6]);
    Last(s[..5]);
    assert s[..7][..6] == s[..6] && s[..6][..5] == s[..5] && s[..5][..4] == s[..4];
  }

  lemma FourBytes(s: seq<byte>)
    requires |s| == 4
    ensures FromBigEndian(s) == s[0] as int * 0x100_0000 + s[1] as int * 0x1_0000 + s[2] as int * 0x100 + s[3] as int
  {
    TwoBytes(s[..2]);
    Last(s);
    Last(s[..3]);
    assert s[..3][..2] == s[..2];
  }

  lemma TwoBytes(s: seq<byte>)
    requires |s| == 2
    ensures FromBigEndian(s) == s[0] as int * 0x100 + s[1] as int
  {
    Last(s);
    Last(s[..1]);
    assert s[..1][..0] == [];
  }

  lemma Last(s: seq<byte>)
    requires s != []
    ensures FromBigEndian(s) == FromBigEndian(s[..|s| - 1]) * 256 + s[|s| - 1]
  {
  }

  lemma LengthIs(f: seq<byte>)
    requires |f| >= 2 && |f| >= 2 + Extension(f[1] as int % 128)
    ensures Extension(f[1] as int % 128) == LengthSize(f[1])
    ensures GivenLength(f) == Length(f[1], f[2..2 + LengthSize(f[1])])
  {
    var ext := f[2..2 + LengthSize(f[1])];
    if |ext| == 2 {
      TwoBytes(ext);
    } else if |ext| == 8 {
      EightBytes(ext);
    }
  }

  lemma ReadsFrame(input: seq<byte>, opcode: byte, payload: seq<byte>, n: nat)
    requires n <= |input| && IsFrame(input[..n], opcode, payload)
    ensures Decode(input) == Got(Frame(opcode, payload), input[n..])
  {
    hide XorByte, Masked, GivenLength, Length, LengthSize, Extension;
    var f := input[..n];
    var at := 2 + Extension(f[1] as int % 128);
    LengthIs(f);
    Within(input, n, 2, at);
    if HasMask(f[1]) {
      Within(input, n, at, at + 4);
      Within(input, n, at + 4, n);
      Unmasked(f[at + 4..], f[at..at + 4], payload);
    } else {
      Within(input, n, at, n);
    }
  }

  lemma Within(input: seq<byte>, n: nat, i: nat, j: nat)
    requires i <= j <= n <= |input|
    ensures input[..n][i..j] == input[i..j] && (j == n ==> input[..n][i..] == input[i..j])
  {
  }

  lemma Unmasked(body: seq<byte>, mask: seq<byte>, payload: seq<byte>)
    requires |mask| == 4 && |body| == |payload|
    ensures Masked(body, mask) == payload
            <==> forall i :: 0 <= i < |payload| ==> payload[i] == XorByte(body[i], mask[i % 4])
  {
    if Masked(body, mask) == payload {
      forall i | 0 <= i < |payload|
        ensures payload[i] == XorByte(body[i], mask[i % 4])
      {
        assert Masked(body, mask)[i] == XorByte(body[i], mask[i % 4]);
      }
    }
  }

  lemma FrameRead(input: seq<byte>)
    requires Decode(input).Got?
    ensures var d := Decode(input);
            |d.rest| <= |input| && d.rest == input[|input| - |d.rest|..]
            && IsFrame(input[..|input| - |d.rest|], d.frame.opcode, d.frame.payload)
  {
    var d := Decode(input);
    var f := input[..|input| - |d.rest|];
    var b1 := input[1];
    var at := 2 + LengthSize(b1);
    assert f[2..at] == input[2..at];
    LengthIs(f);
    if HasMask(b1) {
      Unmasked(f[at + 4..], f[at..at + 4], d.frame.payload);
    }
  }

  /** The reader gives a frame exactly if the input starts with one, and leaves what is behind it; if
      it starts with none, it comes up short. */
  lemma ReadsFrames(input: seq<byte>, opcode: byte, payload: seq<byte>, rest: seq<byte>)
    ensures Decode(input) == Got(Frame(opcode, payload), rest)
            <==> exists n :: 0 <= n <= |input| && IsFrame(input[..n], opcode, payload) && rest == input[n..]
  {
    forall n | 0 <= n <= |input| && IsFrame(input[..n], opcode, payload)
      ensures Decode(input) == Got(Frame(opcode, payload), input[n..])
    {
      ReadsFrame(input, opcode, payload, n);
    }
    if Decode(input) == Got(Frame(opcode, payload), rest) {
      FrameRead(input);
    }
  }

  /** The writer's bytes are a frame: the final fragment, with the mask given and the length in its
      shortest form. */
  lemma WritesFrame(opcode: byte, mask: seq<byte>, payload: seq<byte>)
    requires |payload| < WORD && (mask == [] || |mask| == 4)
    ensures var f := FrameBytes(opcode, mask, payload);
            && IsFrame(f, opcode % 16, payload) && f[0] >= 128 && (opcode < 128 ==> f[0] as int == 128 + opcode as int)
            && (f[1] >= 128 <==> mask != []) && (mask != [] ==> f[|f| - |payload| - 4..|f| - |payload|] == mask)
            && (f[1] as int % 128 == if |payload| <= 125 then |payload| else if |payload| <= 0xFFFF then 126 else 127)
  {
    var f := FrameBytes(opcode, mask, payload);
    RoundTrip(opcode, mask, payload, []);
    assert f + [] == f;
    FrameRead(f);
    assert f[..|f|] == f;
  }

  lemma HeaderExamples()
    ensures Header(1, 5, false) == [0x81, 0x05] && Header(1, 5, true) == [0x81, 0x85]
    ensures Header(2, 256, false) == [0x82, 0x7e, 0x01, 0x00]
    ensures Header(2, 0x1_0000, false) == [0x82, 0x7f, 0, 0, 0, 0, 0, 1, 0, 0]
  {
  }

  lemma KeyExample()
    ensures BigEndian(0x37fa213d, 4) == [0x37, 0xfa, 0x21, 0x3d]
  {
  }

  function Differ(x: nat, y: nat): nat { if x % 2 != y % 2 then 1 else 0 }

  lemma FourLowBits(x: nat, y: nat)
    ensures Xor(x, y) == 16 * Xor(x / 2 / 2 / 2 / 2, y / 2 / 2 / 2 / 2) + 8 * Differ(x / 2 / 2 / 2, y / 2 / 2 / 2)
                         + 4 * Differ(x / 2 / 2, y / 2 / 2) + 2 * Differ(x / 2, y / 2) + Differ(x, y)
  {
    hide Xor;
    Unfolded(x, y);
    Unfolded(x / 2, y / 2);
    Unfolded(x / 2 / 2, y / 2 / 2);
    Unfolded(x / 2 / 2 / 2, y / 2 / 2 / 2);
  }

  lemma HighDigits()
    ensures Xor(4, 3) == 7 && Xor(6, 15) == 9 && Xor(6, 2) == 4 && Xor(6, 3) == 5
  {
  }

  lemma XorExample()
    ensures Xor(0x48, 0x37) == 0x7f && Xor(0x65, 0xfa) == 0x9f && Xor(0x6c, 0x21) == 0x4d
    ensures Xor(0x6c, 0x3d) == 0x51 && Xor(0x6f, 0x37) == 0x58
  {
    hide Xor;
    HighDigits();
    FourLowBits(0x48, 0x37);
    FourLowBits(0x65, 0xfa);
    FourLowBits(0x6c, 0x21);
    FourLowBits(0x6c, 0x3d);
    FourLowBits(0x6f, 0x37);
  }

  lemma MaskExample()
    ensures Masked([0x48, 0x65, 0x6c, 0x6c, 0x6f], [0x37, 0xfa, 0x21, 0x3d]) == [0x7f, 0x9f, 0x4d, 0x51, 0x58]
  {
    hide Xor;
    XorExample();
  }

  /** The examples of section 5.7 of RFC 6455: "Hello" in a text frame, with and without a mask, and the
      headers of 256 and of 65536 binary bytes. */
  lemma StandardFrames()
    ensures FrameBytes(1, [], [0x48, 0x65, 0x6c, 0x6c, 0x6f]) == [0x81, 0x05, 0x48, 0x65, 0x6c, 0x6c, 0x6f]
    ensures Encode(1, 0x37fa213d, [0x48, 0x65, 0x6c, 0x6c, 0x6f])
            == [0x81, 0x85, 0x37, 0xfa, 0x21, 0x3d, 0x7f, 0x9f, 0x4d, 0x51, 0x58]
    ensures Header(2, 256, false) == [0x82, 0x7e, 0x01, 0x00]
    ensures Header(2, 0x1_0000, false) == [0x82, 0x7f, 0, 0, 0, 0, 0, 1, 0, 0]
  {
    hide Header, Masked, BigEndian;
    HeaderExamples();
    KeyExample();
    MaskExample();
  }
}
