/** ws_send_frame and ws_read_frame of samples/order_book_ws.cpp over a blocking stream. */
module WebSocket {
  import opened Bits
  import opened StreamModel
  import opened Streams
  import WS = WebSocketModel

  const STAGING: nat := 2048

  /** The byte of n at place i continues the big-endian bytes above it. */
  lemma NextByte(n: nat, i: nat, k: nat)
    ensures WS.BigEndian(Shr(n, 8 * (i + 1)), k) + [Shr(n, 8 * i) % 256] == WS.BigEndian(Shr(n, 8 * i), k + 1)
  {
    ShrByte(n, 8 * i);
    assert 8 * (i + 1) == 8 * i + 8;
  }

  /** The eight length bytes, highest first. */
  method FillLength(hdr: array<byte>, len: nat)
    requires hdr.Length == 10 && len < WORD
    modifies hdr
    ensures hdr[..2] == old(hdr[..2]) && hdr[2..] == WS.BigEndian(len, 8)
  {
    var size := 2;
    var i: int := 7;
    TopBytes(len);
    while i >= 0
      invariant -1 <= i <= 7 && size == 9 - i
      invariant hdr[..2] == old(hdr[..2])
      invariant hdr[2..size] == WS.BigEndian(Shr(len, 8 * (i + 1)), 7 - i)
    {
      NextByte(len, i, 7 - i);
      ghost var before := hdr[2..size];
      hdr[size] := Shr(len, 8 * i) % 256;
      assert hdr[2..size] == before;
      size := size + 1;
      i := i - 1;
    }
    assert Shr(len, 0) == len;
  }

  /** The header: hdr[..size] as the frame starts. */
  method FillHeader(hdr: array<byte>, opcode: byte, len: nat) returns (size: nat)
    requires hdr.Length == 10 && len < WORD
    modifies hdr
    ensures size <= 10 && hdr[..size] == WS.Header(opcode, len, true)
  {
    size := 2;
    hdr[0] := WS.OpcodeByte(opcode);
    hdr[1] := 0x80;
    WS.TopBit(126);
    WS.TopBit(127);
    if len <= 125 {
      WS.TopBit(len);
      hdr[1] := Or(hdr[1], len);
    } else if len <= 0xFFFF {
      hdr[1] := Or(hdr[1], 126);
      WS.LowEight(len);
      TwoBytes(len);
      hdr[2] := Shr(len, 8) % 256;
      hdr[3] := And(len, 0xFF);
      size := 4;
    } else {
      hdr[1] := Or(hdr[1], 127);
      assert hdr[..2] == [WS.OpcodeByte(opcode), WS.LengthByte(127, true)];
      FillLength(hdr, len);
      size := 10;
      assert hdr[..10] == hdr[..2] + hdr[2..];
    }
  }

  lemma TwoBytes(n: nat)
    requires n <= 0xFFFF
    ensures WS.BigEndian(n, 2) == [Shr(n, 8) % 256, n % 256]
  {
    ShrByte(n, 0);
    assert WS.BigEndian(n / 256, 1) == [n / 256 % 256];
  }

  lemma TopBytes(n: nat)
    requires n < WORD
    ensures Shr(n, 64) == 0
  {
    Pow2Values();
    ShrBound(n, 64, 0);
  }

  /** The four bytes of a masking key, as the code shifts them out. */
  lemma KeyBytes(key: nat)
    ensures WS.BigEndian(key, 4) == [Shr(key, 24) % 256, Shr(key, 16) % 256, Shr(key, 8) % 256, key % 256]
  {
    ShrByte(key, 0);
    ShrByte(key, 8);
    ShrByte(key, 16);
    assert WS.BigEndian(Shr(key, 24), 1) == [Shr(key, 24) % 256];
    assert WS.BigEndian(Shr(key, 16), 2) == [Shr(key, 24) % 256, Shr(key, 16) % 256];
    assert WS.BigEndian(Shr(key, 8), 3) == [Shr(key, 24) % 256, Shr(key, 16) % 256, Shr(key, 8) % 256];
  }

  /** One contiguous staging buffer, one write. */
  method SendFrame(s: Stream, opcode: byte, payload: seq<byte>, key: nat) returns (ok: bool)
    requires key < WS.KEYS && |payload| < WORD
    requires |WS.Encode(opcode, key, payload)| <= STAGING
    modifies s.socket`sent, s.socket`sendPlan
    ensures var o := Sending(s.mode, |WS.Encode(opcode, key, payload)|, old(s.socket.sendPlan));
      ok == o.ok && s.socket.sendPlan == o.plan
      && s.socket.sent == old(s.socket.sent) + WS.Encode(opcode, key, payload)[..o.done]
  {
    var hdr := new byte[10];
    var size := FillHeader(hdr, opcode, |payload|);
    KeyBytes(key);
    var mk: seq<byte> := [Shr(key, 24) % 256, Shr(key, 16) % 256, Shr(key, 8) % 256, key % 256];
    var buf := new byte[STAGING];
    var offset := Stage(buf, hdr[..size], mk, payload);
    ok := s.Write(buf[..offset]);
  }

  /** Header, mask and masked payload, one after another. */
  method Stage(buf: array<byte>, hdr: seq<byte>, mk: seq<byte>, payload: seq<byte>) returns (offset: nat)
    requires |mk| == 4 && |hdr| + 4 + |payload| <= buf.Length
    modifies buf
    ensures offset <= buf.Length && buf[..offset] == hdr + mk + WS.Masked(payload, mk)
  {
    forall i | 0 <= i < |hdr| { buf[i] := hdr[i]; }
    offset := |hdr|;
    forall i | 0 <= i < 4 { buf[offset + i] := mk[i]; }
    offset := offset + 4;
    ghost var front := hdr + mk;
    assert buf[..offset] == front;
    ghost var body := WS.Masked(payload, mk);
    for i := 0 to |payload|
      invariant offset == |front| + i
      invariant buf[..|front|] == front
      invariant forall j :: 0 <= j < i ==> buf[|front| + j] == body[j]
    {
      buf[offset] := XorByte(payload[i], mk[i % 4]);
      offset := offset + 1;
    }
    assert buf[|front|..offset] == body;
    assert buf[..offset] == buf[..|front|] + buf[|front|..offset];
  }

  // ---- Reading ----

  /** The longer length forms: two bytes, or a shift-and-or loop over eight. */
  method ReadLength(s: Stream, b1: byte) returns (ok: bool, len: nat)
    modifies s.socket`incoming, s.socket`recvPlan
    ensures ok ==> var n := WS.LengthSize(b1);
      n <= |old(s.socket.incoming)| && len == WS.Length(b1, old(s.socket.incoming)[..n])
      && s.socket.incoming == old(s.socket.incoming)[n..]
    ensures WS.LengthSize(b1) <= |old(s.socket.incoming)| ==>
      Finishes(old(s.socket.recvPlan), WS.LengthSize(b1), ok, s.socket.recvPlan)
  {
    len := WS.SevenBits(b1);
    ok := true;
    if len == 126 {
      var buf;
      ok, buf := s.Fetch(2);
      WS.ShiftIn([], buf[0]);
      WS.ShiftIn([buf[0]], buf[1]);
      assert buf[..] == [buf[0]] + [buf[1]];
      len := Or(buf[0] as int * 256, buf[1]);
    } else if len == 127 {
      var buf;
      ok, buf := s.Fetch(8);
      len := ReadEight(buf);
    }
  }

  method ReadEight(buf: array<byte>) returns (len: nat)
    requires buf.Length == 8
    ensures len == WS.FromBigEndian(buf[..])
  {
    len := 0;
    for i := 0 to 8
      invariant len == WS.FromBigEndian(buf[..i])
    {
      WS.ShiftIn(buf[..i], buf[i]);
      assert buf[..i + 1] == buf[..i] + [buf[i]];
      NoOverflow(buf[..i]);
      len := Or(len * 256 % WORD, buf[i]);
    }
    assert buf[..8] == buf[..];
  }

  lemma NoOverflow(s: seq<byte>)
    requires |s| <= 7
    ensures WS.FromBigEndian(s) * 256 < WORD
  {
    Pow2Values();
    WS.FromBigEndianBound(s);
    Pow2Add(8 * |s|, 8 * (7 - |s|));
    MulAtLeast(Pow2(8 * |s|), Pow2(8 * (7 - |s|)));
    Pow2Add(8, 56);
    Pow2Add(56, 8);
  }

  /** The payload, unmasked in place. */
  method ReadPayload(s: Stream, len: nat, masked: bool, mk: seq<byte>) returns (ok: bool, payload: seq<byte>)
    requires |mk| == 4
    modifies s.socket`incoming, s.socket`recvPlan
    ensures ok ==> len <= |old(s.socket.incoming)| && s.socket.incoming == old(s.socket.incoming)[len..]
    ensures ok ==> var body := old(s.socket.incoming)[..len];
      payload == if masked then WS.Masked(body, mk) else body
    ensures len <= |old(s.socket.incoming)| && (s.mode.Ssl? ==> len < 0x8000_0000) ==>
      Finishes(old(s.socket.recvPlan), len, ok, s.socket.recvPlan)
  {
    payload := [];
    ok := true;
    if len > 0 {
      var data;
      ok, data := s.Fetch(len);
      ghost var body := data[..];
      if masked {
        for i := 0 to len
          modifies data
          invariant forall j :: 0 <= j < i ==> data[j] == WS.Masked(body, mk)[j]
          invariant forall j :: i <= j < len ==> data[j] == body[j]
        {
          data[i] := XorByte(data[i], mk[i % 4]);
        }
      }
      payload := data[..];
    }
  }

  /** One more step of `k` bytes of the `taken` bytes that a whole call takes. */
  lemma StepFinishes(p: seq<Answer>, used: nat, q: seq<Answer>, k: nat, ok: bool, r: seq<Answer>, taken: nat)
    requires Finishes(p, used, true, q) && Finishes(q, k, ok, r) && used + k <= taken
    ensures if ok then Finishes(p, used + k, true, r) else Finishes(p, taken, false, r)
  {
  }

  /** What the steps of a read say about the whole input. */
  lemma DecodeSteps(input: seq<byte>)
    requires |input| >= 2
    ensures var n := WS.LengthSize(input[1]);
      |input| >= 2 + n ==>
        var len := WS.Length(input[1], input[2..][..n]);
        var m := if WS.HasMask(input[1]) then 4 else 0;
        var start := 2 + n + m;
        WS.Decode(input) ==
          if |input| < start + len then WS.Short
          else
            var body := input[start..][..len];
            WS.Got(WS.Frame(WS.Opcode(input[0]),
              if WS.HasMask(input[1]) then WS.Masked(body, input[2 + n..][..4]) else body), input[start..][len..])
    ensures |input| < 2 + WS.LengthSize(input[1]) ==> WS.Decode(input).Short?
  {
    var n := WS.LengthSize(input[1]);
    if |input| >= 2 + n {
      assert input[2..][..n] == input[2..2 + n];
      var len := WS.Length(input[1], input[2..2 + n]);
      var m := if WS.HasMask(input[1]) then 4 else 0;
      var start := 2 + n + m;
      if |input| >= start + len {
        assert input[start..][..len] == input[start..start + len];
        assert input[start..][len..] == input[start + len..];
        assert m == 4 ==> input[2 + n..][..4] == input[2 + n..start];
      }
    }
  }

  /** The input holds a frame, one that the TLS library's int length can hold. */
  ghost predicate Readable(s: Stream, input: seq<byte>) {
    WS.Decode(input).Got? && (s.mode.Ssl? ==> |WS.Decode(input).frame.payload| < 0x8000_0000)
  }

  /** How many bytes a frame takes. */
  lemma FrameTakes(input: seq<byte>)
    requires WS.Decode(input).Got?
    ensures var n := WS.LengthSize(input[1]);
      var m := if WS.HasMask(input[1]) then 4 else 0;
      |input| - |WS.Decode(input).rest| == 2 + n + m + |WS.Decode(input).frame.payload|
  {
  }

  /** The two leading bytes, each by its own read, and the length. */
  method ReadHeader(s: Stream) returns (ok: bool, b0: byte, b1: byte, len: nat)
    modifies s.socket`incoming, s.socket`recvPlan
    ensures ok ==> var input := old(s.socket.incoming);
      |input| >= 2 && b0 == input[0] && b1 == input[1]
    ensures ok ==> var input := old(s.socket.incoming);
      var n := WS.LengthSize(b1);
      |input| >= 2 + n && len == WS.Length(b1, input[2..][..n]) && s.socket.incoming == input[2 + n..]
    ensures var input := old(s.socket.incoming);
      |input| >= 2 && |input| >= 2 + WS.LengthSize(input[1]) ==>
        Finishes(old(s.socket.recvPlan), 2 + WS.LengthSize(input[1]), ok, s.socket.recvPlan)
  {
    b0, b1, len := 0, 0, 0;
    ghost var input, plan, last := s.socket.incoming, s.socket.recvPlan, s.socket.recvPlan;
    ghost var whole := |input| >= 2 && |input| >= 2 + WS.LengthSize(input[1]);
    ghost var taken := if whole then 2 + WS.LengthSize(input[1]) else 2;
    var data;
    ok, data := s.Fetch(1);
    if whole {
      StepFinishes(plan, 0, plan, 1, ok, s.socket.recvPlan, taken);
    }
    if !ok {
      return;
    }
    b0 := data[0];
    last := s.socket.recvPlan;
    ok, data := s.Fetch(1);
    if whole {
      StepFinishes(plan, 1, last, 1, ok, s.socket.recvPlan, taken);
    }
    if !ok {
      return;
    }
    b1 := data[0];
    last := s.socket.recvPlan;
    assert s.socket.incoming == input[2..];
    ok, len := ReadLength(s, b1);
    if whole {
      StepFinishes(plan, 2, last, taken - 2, ok, s.socket.recvPlan, taken);
    }
  }

  /** ws_read_frame: what it returns and leaves is what the bytes say, for every way they may
      arrive; and it fails only when there is no whole frame or the answers stop moving bytes. */
  method ReadFrame(s: Stream) returns (ok: bool, frame: WS.Frame)
    modifies s.socket`incoming, s.socket`recvPlan
    ensures ok ==> WS.Decode(old(s.socket.incoming)) == WS.Got(frame, s.socket.incoming)
    ensures Readable(s, old(s.socket.incoming)) ==>
      Finishes(old(s.socket.recvPlan),
        |old(s.socket.incoming)| - |WS.Decode(old(s.socket.incoming)).rest|, ok, s.socket.recvPlan)
  {
    frame := WS.Frame(0, []);
    ghost var input, plan := s.socket.incoming, s.socket.recvPlan;
    ghost var readable := Readable(s, input);
    ghost var taken := if readable then |input| - |WS.Decode(input).rest| else 0;
    if readable {
      FrameTakes(input);
    }
    var b0, b1, len;
    ok, b0, b1, len := ReadHeader(s);
    ghost var used := if readable then 2 + WS.LengthSize(input[1]) else 0;
    if readable {
      StepFinishes(plan, 0, plan, used, ok, s.socket.recvPlan, taken);
    }
    if !ok {
      return;
    }
    DecodeSteps(input);
    var mk: seq<byte> := [0, 0, 0, 0];
    var masked := WS.HasMask(b1);
    ghost var last := s.socket.recvPlan;
    if masked {
      var mask;
      ok, mask := s.Fetch(4);
      if readable {
        StepFinishes(plan, used, last, 4, ok, s.socket.recvPlan, taken);
        used := used + 4;
      }
      if !ok {
        return;
      }
      mk := mask[..];
    }
    last := s.socket.recvPlan;
    var payload;
    ok, payload := ReadPayload(s, len, masked, mk);
    if readable {
      StepFinishes(plan, used, last, len, ok, s.socket.recvPlan, taken);
    }
    frame := WS.Frame(WS.Opcode(b0), payload);
  }
}
