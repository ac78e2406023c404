/** The blocking streams of nix/tcp_stream.cpp and tls/tcp_tls_stream.cpp, and the length-prefixed
    strings of stream.h, over a socket whose every answer is arbitrary. */
module Streams {
  import opened Bits
  import opened StreamModel

  /** One end of a connection: what was sent, what will arrive, and the answers the kernel or the
      TLS library will give. When the answers run out, calls fail. */
  class Socket {
    var sent: seq<byte>
    var incoming: seq<byte>
    var sendPlan: seq<Answer>
    var recvPlan: seq<Answer>

    constructor (incoming: seq<byte>, sendPlan: seq<Answer>, recvPlan: seq<Answer>)
      ensures this.incoming == incoming && this.sendPlan == sendPlan && this.recvPlan == recvPlan
      ensures sent == []
    {
      this.incoming, this.sendPlan, this.recvPlan := incoming, sendPlan, recvPlan;
      sent := [];
    }

    /** One write call on `data`, which is never empty; -1 ends the caller's loop. */
    method Send(mode: Mode, data: seq<byte>) returns (r: int)
      requires data != []
      modifies this`sent, this`sendPlan
      ensures old(sendPlan) == [] ==> r == -1 && sendPlan == []
      ensures old(sendPlan) != [] ==>
        r == Turn(mode, false, old(sendPlan)[0], |data|) && sendPlan == old(sendPlan)[1..]
      ensures -1 <= r <= |data|
      ensures sent == if r >= 0 then old(sent) + data[..r] else old(sent)
    {
      if sendPlan == [] {
        return -1;
      }
      r := Turn(mode, false, sendPlan[0], |data|);
      sendPlan := sendPlan[1..];
      if r >= 0 {
        sent := sent + data[..r];
      }
    }

    /** One gathering call, which may move nothing. */
    method SendGathered(buffers: seq<seq<byte>>) returns (r: int)
      modifies this`sent, this`sendPlan
      ensures old(sendPlan) == [] ==> r == -1 && sendPlan == []
      ensures old(sendPlan) != [] ==> sendPlan == old(sendPlan)[1..]
      ensures old(sendPlan) != [] && !old(sendPlan)[0].Moved? ==> r == -1
      ensures old(sendPlan) != [] && old(sendPlan)[0].Moved? ==>
        r == Min(old(sendPlan)[0].count, Total(buffers))
      ensures sent == if r >= 0 then old(sent) + Concat(buffers)[..r] else old(sent)
    {
      if sendPlan == [] {
        return -1;
      }
      var answer := sendPlan[0];
      sendPlan := sendPlan[1..];
      if !answer.Moved? {
        return -1;
      }
      r := Min(answer.count, Total(buffers));
      sent := sent + Concat(buffers)[..r];
    }

    /** One read call into data[from..from + limit]; 0 and below end the caller's loop, except
        that the TLS library may ask to try again. */
    method Recv(mode: Mode, data: array<byte>, from: nat, limit: nat) returns (r: int)
      requires limit > 0 && from + limit <= data.Length
      modifies this`incoming, this`recvPlan, data
      ensures old(recvPlan) == [] ==> r == -1 && recvPlan == []
      ensures old(recvPlan) != [] ==>
        r == Arriving(mode, old(recvPlan)[0], limit, |old(incoming)|) && recvPlan == old(recvPlan)[1..]
      ensures -1 <= r <= limit && r <= |old(incoming)|
      ensures r < 0 ==> incoming == old(incoming)
      ensures r >= 0 ==> incoming == old(incoming)[r..]
      ensures forall i :: 0 <= i < data.Length ==>
        data[i] == if from <= i < from + r then old(incoming)[i - from] else old(data[i])
    {
      if recvPlan == [] {
        return -1;
      }
      r := Arriving(mode, recvPlan[0], limit, |incoming|);
      recvPlan := recvPlan[1..];
      if r >= 0 {
        forall i | 0 <= i < r {
          data[from + i] := incoming[i];
        }
        incoming := incoming[r..];
      }
    }
  }

  /** With no buffer left the write has succeeded. */
  lemma NothingLeft(mode: Mode, skip: nat, plan: seq<Answer>, whole: Outcome, done: nat)
    requires Leaves(whole, done, SendingAll(mode, Pieces([], skip), plan))
    ensures whole == Outcome(true, done, plan)
  {
  }

  /** A buffer that was sent already is passed over. */
  lemma PassOver(mode: Mode, buffers: seq<seq<byte>>, i: nat, skip: nat, plan: seq<Answer>, whole: Outcome, done: nat)
    requires i < |buffers| && skip >= |buffers[i]|
    requires Leaves(whole, done, SendingAll(mode, Pieces(buffers[i..], skip), plan))
    ensures Leaves(whole, done, SendingAll(mode, Pieces(buffers[i + 1..], skip - |buffers[i]|), plan))
  {
    PiecesAt(mode, buffers, i, skip, plan, whole, done);
  }

  /** Sending the next bytes of `s` extends what was sent of it. */
  lemma TakeMore(start: seq<byte>, s: seq<byte>, i: nat, next: seq<byte>, k: nat)
    requires i <= k <= |s| && next == s[i..][..k - i]
    ensures (start + s[..i]) + next == start + s[..k]
  {
  }

  /** What the resume loop still has to do, one buffer on. */
  lemma PiecesAt(mode: Mode, buffers: seq<seq<byte>>, i: nat, skip: nat, plan: seq<Answer>, whole: Outcome, done: nat)
    requires i < |buffers|
    requires Leaves(whole, done, SendingAll(mode, Pieces(buffers[i..], skip), plan))
    ensures skip >= |buffers[i]| ==>
      Leaves(whole, done, SendingAll(mode, Pieces(buffers[i + 1..], skip - |buffers[i]|), plan))
    ensures skip < |buffers[i]| ==>
      var o := Sending(mode, |buffers[i]| - skip, plan);
      if o.ok then Leaves(whole, done + o.done, SendingAll(mode, Pieces(buffers[i + 1..], 0), o.plan))
      else whole == Outcome(false, done + o.done, o.plan)
  {
  }

  lemma TotalStep(buffers: seq<seq<byte>>, i: nat)
    requires i < |buffers|
    ensures Total(buffers[..i + 1]) == Total(buffers[..i]) + |buffers[i]|
  {
    ConcatStep(buffers, i);
  }

  /** The resume loop never sends more than what was left. */
  lemma ResumeBound(mode: Mode, buffers: seq<seq<byte>>, written: nat, plan: seq<Answer>)
    requires written <= Total(buffers)
    ensures written + SendingAll(mode, Pieces(buffers, written), plan).done <= Total(buffers)
  {
  }

  /** The bytes of buffer i, cut at `skip`, are the next ones. */
  lemma NextBytes(buffers: seq<seq<byte>>, i: nat, skip: nat, n: nat)
    requires i < |buffers| && skip <= |buffers[i]| && n <= |buffers[i]| - skip
    ensures var t := Total(buffers[..i]) + skip;
      t + n <= Total(buffers) && buffers[i][skip..][..n] == Concat(buffers)[t..][..n]
  {
    var a, b, c := Concat(buffers[..i]), buffers[i], Concat(buffers[i + 1..]);
    ConcatSplit(buffers, i);
    ConcatStep(buffers, i);
    assert Concat(buffers) == a + (b + c);
    assert (a + (b + c))[|a| + skip..] == b[skip..] + c;
  }

  class Stream {
    const socket: Socket
    const mode: Mode  // Tcp for tcp_stream; Ktls or Ssl for a TLS stream

    constructor (socket: Socket, mode: Mode)
      ensures this.socket == socket && this.mode == mode
    {
      this.socket, this.mode := socket, mode;
    }

    /** The write loops. */
    method Write(data: seq<byte>) returns (ok: bool)
      requires mode.Tcp? || data != []
      modifies socket`sent, socket`sendPlan
      ensures var o := Sending(mode, |data|, old(socket.sendPlan));
        ok == o.ok && socket.sendPlan == o.plan && socket.sent == old(socket.sent) + data[..o.done]
    {
      var total := 0;
      ghost var whole := Sending(mode, |data|, socket.sendPlan);
      while total != |data|
        invariant 0 <= total <= |data|
        invariant socket.sent == old(socket.sent) + data[..total]
        invariant Leaves(whole, total, Sending(mode, |data| - total, socket.sendPlan))
        decreases |socket.sendPlan|, |data| - total
      {
        SendingTurn(mode, |data| - total, socket.sendPlan, whole, total);
        var moved := socket.Send(mode, data[total..]);
        if moved < 0 {
          return false;
        }
        TakeMore(old(socket.sent), data, total, data[total..][..moved], total + moved);
        total := total + moved;
      }
      return true;
    }

    /** write_v where the kernel can gather: one call, then the rest buffer by buffer. */
    method WriteScattered(buffers: seq<seq<byte>>) returns (ok: bool)
      requires |buffers| <= 1024 && !mode.Ssl?
      modifies socket`sent, socket`sendPlan
      ensures var o := Scatter(mode, buffers, old(socket.sendPlan));
        o.done <= Total(buffers) && ok == o.ok && socket.sendPlan == o.plan
        && socket.sent == old(socket.sent) + Concat(buffers)[..o.done]
    {
      ghost var start := socket.sent;
      ScatterExact(mode, buffers, socket.sendPlan);
      var moved := socket.SendGathered(buffers);
      if moved < 0 {
        return false;
      }
      PiecesExact(buffers, moved);
      if moved < Total(buffers) {
        ok := Resume(buffers, moved, start);
      } else {
        assert Concat(Pieces(buffers, moved)) == [];
        ok := true;
      }
    }

    /** One buffer from where it was cut, after the resume loop has sent `before` bytes. */
    method WriteRest(buffers: seq<seq<byte>>, i: nat, skip: nat, ghost start: seq<byte>,
                     ghost whole: Outcome, ghost before: nat) returns (ok: bool, ghost done: nat)
      requires i < |buffers| && skip < |buffers[i]|
      requires Total(buffers[..i]) + skip <= Total(buffers)
      requires socket.sent == start + Concat(buffers)[..Total(buffers[..i]) + skip]
      requires Leaves(whole, before, SendingAll(mode, Pieces(buffers[i..], skip), socket.sendPlan))
      modifies socket`sent, socket`sendPlan
      ensures before <= done && Total(buffers[..i]) + skip + (done - before) <= Total(buffers)
      ensures socket.sent == start + Concat(buffers)[..Total(buffers[..i]) + skip + (done - before)]
      ensures ok ==> done - before == |buffers[i]| - skip
      ensures ok ==> Leaves(whole, done, SendingAll(mode, Pieces(buffers[i + 1..], 0), socket.sendPlan))
      ensures !ok ==> whole == Outcome(false, done, socket.sendPlan)
    {
      ghost var o := Sending(mode, |buffers[i]| - skip, socket.sendPlan);
      ghost var t := Total(buffers[..i]) + skip;
      NextBytes(buffers, i, skip, o.done);
      TakeMore(start, Concat(buffers), t, buffers[i][skip..][..o.done], t + o.done);
      PiecesAt(mode, buffers, i, skip, socket.sendPlan, whole, before);
      ok := Write(buffers[i][skip..]);
      done := before + o.done;
    }

    /** The resume loop after a gathering call that moved `written` bytes. */
    method Resume(buffers: seq<seq<byte>>, written: nat, ghost start: seq<byte>) returns (ok: bool)
      requires written <= Total(buffers) && socket.sent == start + Concat(buffers)[..written]
      modifies socket`sent, socket`sendPlan
      ensures var o := SendingAll(mode, Pieces(buffers, written), old(socket.sendPlan));
        ok == o.ok && socket.sendPlan == o.plan
        && written + o.done <= Total(buffers) && socket.sent == start + Concat(buffers)[..written + o.done]
    {
      var skip: nat := written;
      var i := 0;
      ghost var whole := SendingAll(mode, Pieces(buffers, written), socket.sendPlan);
      ghost var done: nat := 0;
      ResumeBound(mode, buffers, written, socket.sendPlan);
      assert buffers[0..] == buffers;
      while i < |buffers|
        invariant 0 <= i <= |buffers|
        invariant written + done == Total(buffers[..i]) + skip <= Total(buffers)
        invariant socket.sent == start + Concat(buffers)[..written + done]
        invariant Leaves(whole, done, SendingAll(mode, Pieces(buffers[i..], skip), socket.sendPlan))
      {
        TotalStep(buffers, i);
        if skip >= |buffers[i]| {
          PassOver(mode, buffers, i, skip, socket.sendPlan, whole, done);
          skip := skip - |buffers[i]|;
        } else {
          var sentAll;
          sentAll, done := WriteRest(buffers, i, skip, start, whole, done);
          if !sentAll {
            return false;
          }
          skip := 0;
        }
        i := i + 1;
      }
      assert buffers[..i] == buffers && buffers[i..] == [];
      NothingLeft(mode, skip, socket.sendPlan, whole, done);
      return true;
    }

    /** write_v. */
    method WriteV(buffers: seq<seq<byte>>) returns (ok: bool)
      requires mode.Tcp? || (mode.Ktls? && Total(buffers) > 0) ==> |buffers| <= 1024
      modifies socket`sent, socket`sendPlan
      ensures var o := WritingAll(mode, buffers, old(socket.sendPlan));
        ok == o.ok && socket.sendPlan == o.plan && o.done <= Total(buffers)
        && socket.sent == old(socket.sent) + Concat(buffers)[..o.done]
      ensures ok ==> socket.sent == old(socket.sent) + Concat(buffers)
    {
      WritingAllExact(mode, buffers, socket.sendPlan);
      if if mode.Tcp? then buffers == [] else Total(buffers) == 0 {
        return true;
      }
      if !mode.Ssl? {
        ok := WriteScattered(buffers);
        return;
      }
      var gathered := [];
      var i := 0;
      while i < |buffers|
        invariant 0 <= i <= |buffers| && gathered == Concat(buffers[..i])
        invariant socket.sent == old(socket.sent) && socket.sendPlan == old(socket.sendPlan)
      {
        ConcatStep(buffers, i);
        gathered := gathered + buffers[i];
        i := i + 1;
      }
      assert buffers[..|buffers|] == buffers;
      ok := Write(gathered);
      assert Concat(buffers)[..Total(buffers)] == Concat(buffers);
    }

    /** One turn of a read loop; a negative result ends it. */
    method ReadTurn(data: array<byte>, total: nat, length: nat, ghost whole: Outcome) returns (moved: int)
      requires total < length <= data.Length
      requires Leaves(whole, total, Receiving(mode, length - total, |socket.incoming|, socket.recvPlan))
      modifies socket`incoming, socket`recvPlan, data
      ensures moved < 0 ==> whole == Outcome(false, total, socket.recvPlan) && socket.incoming == old(socket.incoming)
      ensures moved >= 0 ==> total + moved <= length && |socket.recvPlan| < |old(socket.recvPlan)|
      ensures moved >= 0 ==>
        moved <= |old(socket.incoming)| && socket.incoming == old(socket.incoming)[moved..]
      ensures moved >= 0 ==>
        Leaves(whole, total + moved, Receiving(mode, length - total - moved, |socket.incoming|, socket.recvPlan))
      ensures forall i :: 0 <= i < data.Length ==>
        data[i] == if total <= i < total + moved then old(socket.incoming)[i - total] else old(data[i])
    {
      ReceivingTurn(mode, length - total, |socket.incoming|, socket.recvPlan, whole, total);
      moved := socket.Recv(mode, data, total, length - total);
    }

    /** The read loops: data[..length] is filled in place. */
    method Read(data: array<byte>, length: nat) returns (ok: bool)
      requires length <= data.Length
      modifies socket`incoming, socket`recvPlan, data
      ensures var o := Receiving(mode, length, |old(socket.incoming)|, old(socket.recvPlan));
        ok == o.ok && socket.recvPlan == o.plan
        && socket.incoming == old(socket.incoming)[o.done..]
        && forall i :: 0 <= i < data.Length ==>
             data[i] == if i < o.done then old(socket.incoming)[i] else old(data[i])
    {
      var total := 0;
      ghost var all := socket.incoming;
      ghost var whole := Receiving(mode, length, |all|, socket.recvPlan);
      while total != length
        invariant 0 <= total <= length && total <= |all|
        invariant socket.incoming == all[total..]
        invariant forall i :: 0 <= i < data.Length ==>
          data[i] == if i < total then all[i] else old(data[i])
        invariant Leaves(whole, total, Receiving(mode, length - total, |socket.incoming|, socket.recvPlan))
        decreases |socket.recvPlan|, length - total
      {
        var moved := ReadTurn(data, total, length, whole);
        if moved < 0 {
          return false;
        }
        assert all[total..][moved..] == all[total + moved..];
        total := total + moved;
      }
      return true;
    }

    /** write<std::string>: the low sixteen bits of the length, then all the bytes. */
    method WriteString(s: seq<byte>) returns (ok: bool)
      requires mode.Tcp? || s != []
      modifies socket`sent, socket`sendPlan
      ensures Sent(old(socket.sent), Frame(s), socket.sent, ok)
      ensures (mode.Ssl? ==> |s| < 0x8000_0000) ==> Finishes(old(socket.sendPlan), |Frame(s)|, ok, socket.sendPlan)
    {
      ghost var plan := socket.sendPlan;
      var prefix := LengthPrefix(|s|);
      assert Frame(s)[..2] == prefix;
      if !mode.Ssl? || |s| < 0x8000_0000 {
        WriteStringFinishes(mode, s, plan);
      }
      ok := Write(prefix);
      if ok {
        TakeMore(old(socket.sent), Frame(s), 2, s[..Sending(mode, |s|, socket.sendPlan).done],
          2 + Sending(mode, |s|, socket.sendPlan).done);
        ok := Write(s);
      } else {
        assert prefix[..Sending(mode, 2, plan).done] == Frame(s)[..Sending(mode, 2, plan).done];
      }
    }

    /** A read into fresh memory. */
    method Fetch(length: nat) returns (ok: bool, data: array<byte>)
      modifies socket`incoming, socket`recvPlan
      ensures fresh(data) && data.Length == length
      ensures ok ==> length <= |old(socket.incoming)|
      ensures ok ==> data[..] == old(socket.incoming)[..length] && socket.incoming == old(socket.incoming)[length..]
      ensures length <= |old(socket.incoming)| && (mode.Ssl? ==> length < 0x8000_0000) ==>
        Finishes(old(socket.recvPlan), length, ok, socket.recvPlan)
    {
      if length <= |socket.incoming| && (mode.Ssl? ==> length < 0x8000_0000) {
        FetchFinishes(mode, length, |socket.incoming|, socket.recvPlan);
      }
      data := new byte[length];
      ok := Read(data, length);
    }

    /** read<std::string> into a variable that holds `target`, which an empty string leaves as
        it was. */
    method ReadString(target: seq<byte>) returns (ok: bool, value: seq<byte>)
      modifies socket`incoming, socket`recvPlan
      ensures ok ==> ReadFrame(old(socket.incoming), target) == Got(value, socket.incoming)
      ensures ReadFrame(old(socket.incoming), target).Got? ==>
        Finishes(old(socket.recvPlan),
          |old(socket.incoming)| - |ReadFrame(old(socket.incoming), target).rest|, ok, socket.recvPlan)
    {
      value := target;
      var prefix;
      ok, prefix := Fetch(2);
      if !ok {
        return;
      }
      assert prefix[..] == old(socket.incoming)[..2];
      var size := FromPrefix(prefix[0], prefix[1]);
      if size > 0 {
        var resized;
        ok, resized := Fetch(size);
        value := resized[..];
      }
    }

    method SendStrings(strings: seq<seq<byte>>) returns (ok: bool)
      requires mode.Tcp? || forall i :: 0 <= i < |strings| ==> strings[i] != []
      modifies socket`sent, socket`sendPlan
      ensures ok ==> socket.sent == old(socket.sent) + Frames(strings)
      ensures Moving(old(socket.sendPlan), |Frames(strings)|) && (mode.Ssl? ==> Small(strings)) ==> ok
    {
      var i := 0;
      ghost var moving := Moving(socket.sendPlan, |Frames(strings)|) && (mode.Ssl? ==> Small(strings));
      assert strings[0..] == strings;
      while i < |strings|
        invariant 0 <= i <= |strings|
        invariant socket.sent + Frames(strings[i..]) == old(socket.sent) + Frames(strings)
        invariant moving ==> Moving(socket.sendPlan, |Frames(strings[i..])|)
        invariant moving ==> mode.Ssl? ==> Small(strings)
      {
        FramesStep(strings, i);
        ok := WriteString(strings[i]);
        if !ok {
          return;
        }
        i := i + 1;
      }
      return true;
    }

    method ReadStrings(n: nat) returns (ok: bool, values: seq<seq<byte>>)
      modifies socket`incoming, socket`recvPlan
      ensures ok ==> ReadFrames(old(socket.incoming), n) == GotList(values, socket.incoming)
      ensures ReadFrames(old(socket.incoming), n).GotList? ==>
        Moving(old(socket.recvPlan), |old(socket.incoming)|) ==> ok
    {
      values := [];
      var i := 0;
      ghost var input := socket.incoming;
      ghost var moving := ReadFrames(input, n).GotList? && Moving(socket.recvPlan, |input|);
      while i < n
        invariant 0 <= i <= n
        invariant Remains(ReadFrames(input, n), values, ReadFrames(socket.incoming, n - i))
        invariant moving ==> Moving(socket.recvPlan, |socket.incoming|)
      {
        ghost var before := socket.incoming;
        var value;
        ok, value := ReadString([]);
        if !ok {
          return;
        }
        RemainsStep(ReadFrames(input, n), values, before, n - i, value);
        values := values + [value];
        i := i + 1;
      }
      return true, values;
    }
  }

  /** Reading is `values` further and `left` is still to come. */
  ghost predicate Remains(whole: ReadList, values: seq<seq<byte>>, left: ReadList) {
    match left
    case ShortList => whole.ShortList?
    case GotList(more, rest) => whole == GotList(values + more, rest)
  }

  lemma RemainsStep(whole: ReadList, values: seq<seq<byte>>, input: seq<byte>, n: nat, value: seq<byte>)
    requires n > 0 && ReadFrame(input, []).Got? && ReadFrame(input, []).value == value
    requires Remains(whole, values, ReadFrames(input, n))
    ensures Remains(whole, values + [value], ReadFrames(ReadFrame(input, []).rest, n - 1))
  {
  }

  ghost predicate Small(strings: seq<seq<byte>>) {
    forall i :: 0 <= i < |strings| ==> |strings[i]| <= 0xFFFF
  }

  lemma FramesStep(strings: seq<seq<byte>>, i: nat)
    requires i < |strings|
    ensures Frames(strings[i..]) == Frame(strings[i]) + Frames(strings[i + 1..])
  {
  }

  /** Two streams over one connection: whatever the short results on either side, as long as each
      answer moves something, the strings that were written are read, and nothing else is taken. */
  method Exchange(writer: Stream, reader: Stream, strings: seq<seq<byte>>, suffix: seq<byte>)
      returns (values: seq<seq<byte>>)
    requires writer.socket != reader.socket && writer.socket.sent == []
    requires Small(strings)
    requires writer.mode.Tcp? || forall i :: 0 <= i < |strings| ==> strings[i] != []
    requires Moving(writer.socket.sendPlan, |Frames(strings)|)
    requires Moving(reader.socket.recvPlan, |Frames(strings)| + |suffix|)
    modifies writer.socket, reader.socket
    ensures values == strings && reader.socket.incoming == suffix
  {
    var written := writer.SendStrings(strings);
    reader.socket.incoming := writer.socket.sent + suffix;
    FramesReturn(strings, suffix);
    assert [] + Frames(strings) == Frames(strings);
    var ok;
    ok, values := reader.ReadStrings(|strings|);
  }

  /** If the next answers each move something, and there are at least as many of them as bytes,
      then the call succeeded and used no more answers than bytes. */
  ghost predicate Finishes(before: seq<Answer>, bytes: nat, ok: bool, now: seq<Answer>) {
    forall n: nat :: n >= bytes && Moving(before, n) ==> ok && Moving(now, n - bytes)
  }

  lemma FetchFinishes(mode: Mode, length: nat, available: nat, plan: seq<Answer>)
    requires length <= available && (mode.Ssl? ==> length < 0x8000_0000)
    ensures var o := Receiving(mode, length, available, plan); Finishes(plan, length, o.ok, o.plan)
  {
    forall n: nat | n >= length && Moving(plan, n)
      ensures var o := Receiving(mode, length, available, plan); o.ok && Moving(o.plan, n - length)
    {
      ReceivingFinishes(mode, length, available, plan, n);
    }
  }

  lemma WriteStringFinishes(mode: Mode, s: seq<byte>, plan: seq<Answer>)
    requires mode.Ssl? ==> |s| < 0x8000_0000
    ensures var p := Sending(mode, 2, plan);
      var o := Sending(mode, |s|, p.plan);
      Finishes(plan, |Frame(s)|, p.ok && o.ok, o.plan)
  {
    forall n: nat | n >= |Frame(s)| && Moving(plan, n)
      ensures var p := Sending(mode, 2, plan);
        var o := Sending(mode, |s|, p.plan);
        p.ok && o.ok && Moving(o.plan, n - |Frame(s)|)
    {
      SendingFinishes(mode, 2, plan, n);
      SendingFinishes(mode, |s|, Sending(mode, 2, plan).plan, n - 2);
    }
  }

  /** A prefix of `data` went out, the whole of it exactly when the call succeeded. */
  ghost predicate Sent(before: seq<byte>, data: seq<byte>, now: seq<byte>, ok: bool) {
    && |before| <= |now| <= |before| + |data|
    && now == before + data[..|now| - |before|]
    && (ok <==> |now| == |before| + |data|)
  }
}
