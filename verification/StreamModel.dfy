/** The blocking stream loops as functions of what the kernel answers: how far a write or a read
    loop gets, what a resumed scatter write sends, and length-prefixed strings. */
module StreamModel {
  import opened Bits

  /** One answer of the kernel or of the TLS library: bytes moved (as many as that if the request
      is large enough), a request to try again, or a failure. */
  datatype Answer = Moved(count: nat) | Again | Failed

  /** Which loop: plain sockets, kernel TLS, or the TLS library. */
  datatype Mode = Tcp | Ktls | Ssl

  datatype Outcome = Outcome(ok: bool, done: nat, plan: seq<Answer>)

  /** A size_t cast to a 32-bit int, as the TLS library's length parameter is. */
  function IntCast(n: nat): int {
    var m := n % 0x1_0000_0000;
    if m >= 0x8000_0000 then m - 0x1_0000_0000 else m
  }

  /** The most bytes one call may be asked to move when `rest` are left. */
  function Request(mode: Mode, rest: nat): nat {
    if mode.Ssl? && IntCast(rest) < 0 then 0
    else if mode.Ssl? then IntCast(rest)
    else rest
  }

  lemma RequestFits(mode: Mode, rest: nat)
    ensures Request(mode, rest) <= rest
  {
  }

  /** What one call moves, or -1 when the loop gives up. A plain send may move nothing and is
      repeated; everywhere else moving nothing is an error. */
  function Turn(mode: Mode, reading: bool, answer: Answer, rest: nat): (k: int)
    ensures -1 <= k <= rest
  {
    RequestFits(mode, rest);
    match answer
    case Moved(n) =>
      var k := Min(n, Request(mode, rest));
      if k > 0 || (mode.Tcp? && !reading) then k else -1
    case Again => if mode.Ssl? then 0 else -1
    case Failed => -1
  }

  /** A write loop over `length` bytes. */
  function Sending(mode: Mode, length: nat, plan: seq<Answer>): (o: Outcome)
    ensures o.done <= length && (o.ok <==> o.done == length)
    decreases |plan|
  {
    if length == 0 then Outcome(true, 0, plan)
    else if plan == [] then Outcome(false, 0, [])
    else
      var k := Turn(mode, false, plan[0], length);
      if k < 0 then Outcome(false, 0, plan[1..])
      else
        var o := Sending(mode, length - k, plan[1..]);
        Outcome(o.ok, k + o.done, o.plan)
  }

  /** `done` bytes have moved and the outcome `rest` is still to come. */
  ghost predicate Leaves(whole: Outcome, done: nat, rest: Outcome) {
    whole == Outcome(rest.ok, done + rest.done, rest.plan)
  }

  /** One turn of a write loop. */
  lemma SendingTurn(mode: Mode, length: nat, plan: seq<Answer>, whole: Outcome, done: nat)
    requires length != 0 && Leaves(whole, done, Sending(mode, length, plan))
    ensures plan == [] ==> whole == Outcome(false, done, [])
    ensures plan != [] ==>
      var k := Turn(mode, false, plan[0], length);
      if k < 0 then whole == Outcome(false, done, plan[1..])
      else Leaves(whole, done + k, Sending(mode, length - k, plan[1..]))
  {
  }

  /** A read loop over `length` bytes of which `available` will ever arrive. */
  function Receiving(mode: Mode, length: nat, available: nat, plan: seq<Answer>): (o: Outcome)
    ensures o.done <= length && o.done <= available && (o.ok <==> o.done == length)
    decreases |plan|
  {
    if length == 0 then Outcome(true, 0, plan)
    else if plan == [] then Outcome(false, 0, [])
    else
      var k := Arriving(mode, plan[0], length, available);
      if k < 0 then Outcome(false, 0, plan[1..])
      else
        var o := Receiving(mode, length - k, available - k, plan[1..]);
        Outcome(o.ok, k + o.done, o.plan)
  }

  /** A read call never moves more than there is. */
  function Arriving(mode: Mode, answer: Answer, rest: nat, available: nat): (k: int)
    ensures -1 <= k <= rest && k <= available
  {
    Turn(mode, true, if answer.Moved? then Moved(Min(answer.count, available)) else answer, rest)
  }

  /** The bytes the leading successful calls of a plan can move. */
  function Capacity(plan: seq<Answer>): nat {
    if plan == [] || !plan[0].Moved? then 0 else plan[0].count + Capacity(plan[1..])
  }

  /** How far a plain write gets, exactly: as far as the answers reach, short ones and zeros
      included. */
  lemma {:induction false} SendingReach(length: nat, plan: seq<Answer>)
    ensures Sending(Tcp, length, plan).done == Min(length, Capacity(plan))
    decreases |plan|
  {
    if length != 0 && plan != [] && plan[0].Moved? {
      SendingReach(length - Min(plan[0].count, length), plan[1..]);
    }
  }

  /** The first `n` answers move something. */
  ghost predicate Moving(plan: seq<Answer>, n: nat) {
    |plan| >= n && forall i :: 0 <= i < n ==> plan[i].Moved? && plan[i].count > 0
  }

  lemma MovingRest(plan: seq<Answer>, n: nat)
    requires n > 0 && Moving(plan, n)
    ensures plan[0].Moved? && plan[0].count > 0 && Moving(plan[1..], n - 1)
  {
  }

  lemma MovingFewer(plan: seq<Answer>, n: nat, k: nat)
    requires Moving(plan, n) && k <= n
    ensures Moving(plan, k)
  {
  }

  lemma TurnMoves(mode: Mode, answer: Answer, rest: nat)
    requires rest > 0 && answer.Moved? && answer.count > 0
    requires mode.Ssl? ==> rest < 0x8000_0000
    ensures Turn(mode, false, answer, rest) > 0
  {
  }

  /** Whatever the short results, n answers that each move something finish n bytes, and what is
      left of the plan still has all but n of them. */
  lemma {:induction false} SendingFinishes(mode: Mode, length: nat, plan: seq<Answer>, n: nat)
    requires length <= n && Moving(plan, n) && (mode.Ssl? ==> length < 0x8000_0000)
    ensures Sending(mode, length, plan).ok
    ensures Moving(Sending(mode, length, plan).plan, n - length)
    decreases |plan|
  {
    if length != 0 {
      var k := Turn(mode, false, plan[0], length);
      MovingRest(plan, n);
      TurnMoves(mode, plan[0], length);
      SendingFinishes(mode, length - k, plan[1..], n - 1);
      MovingFewer(Sending(mode, length - k, plan[1..]).plan, n - 1 - (length - k), n - length);
      SendingTurn(mode, length, plan, Sending(mode, length, plan), 0);
    }
  }

  lemma ArrivingMoves(mode: Mode, answer: Answer, rest: nat, available: nat)
    requires 0 < rest <= available && answer.Moved? && answer.count > 0
    requires mode.Ssl? ==> rest < 0x8000_0000
    ensures Arriving(mode, answer, rest, available) > 0
  {
  }

  /** One turn of a read loop. */
  lemma ReceivingTurn(mode: Mode, length: nat, available: nat, plan: seq<Answer>, whole: Outcome, done: nat)
    requires length != 0 && Leaves(whole, done, Receiving(mode, length, available, plan))
    ensures plan == [] ==> whole == Outcome(false, done, [])
    ensures plan != [] ==>
      var k := Arriving(mode, plan[0], length, available);
      if k < 0 then whole == Outcome(false, done, plan[1..])
      else Leaves(whole, done + k, Receiving(mode, length - k, available - k, plan[1..]))
  {
  }

  lemma ReceivingOneMore(mode: Mode, length: nat, available: nat, plan: seq<Answer>, n: nat, k: nat)
    requires 0 < k <= length <= n && length <= available && plan != []
    requires k == Arriving(mode, plan[0], length, available)
    requires var o := Receiving(mode, length - k, available - k, plan[1..]);
      o.ok && Moving(o.plan, n - 1 - (length - k))
    ensures var o := Receiving(mode, length, available, plan); o.ok && Moving(o.plan, n - length)
  {
    ReceivingTurn(mode, length, available, plan, Receiving(mode, length, available, plan), 0);
    MovingFewer(Receiving(mode, length - k, available - k, plan[1..]).plan, n - 1 - (length - k), n - length);
  }

  lemma {:induction false} ReceivingFinishes(mode: Mode, length: nat, available: nat, plan: seq<Answer>, n: nat)
    requires length <= n && length <= available && Moving(plan, n)
    requires mode.Ssl? ==> length < 0x8000_0000
    ensures Receiving(mode, length, available, plan).ok
    ensures Moving(Receiving(mode, length, available, plan).plan, n - length)
    decreases |plan|
  {
    if length != 0 {
      var k := Arriving(mode, plan[0], length, available);
      ArrivingMoves(mode, plan[0], length, available);
      MovingRest(plan, n);
      ReceivingFinishes(mode, length - k, available - k, plan[1..], n - 1);
      ReceivingOneMore(mode, length, available, plan, n, k);
    }
  }

  /** The length cast to int: a write of 2^31 bytes or more through the TLS library never
      finishes, whatever the library answers. */
  lemma {:induction false} SslWriteIsBelow2G(length: nat, plan: seq<Answer>)
    requires length >= 0x8000_0000
    ensures !Sending(Ssl, length, plan).ok
    decreases |plan|
  {
    if plan != [] {
      var k := Turn(Ssl, false, plan[0], length);
      if k >= 0 {
        assert length - k >= 0x8000_0000 by {
          assert k <= Request(Ssl, length);
        }
        SslWriteIsBelow2G(length - k, plan[1..]);
      }
    }
  }

  // ---- Scatter writes ----

  function Concat(buffers: seq<seq<byte>>): seq<byte> {
    if buffers == [] then [] else buffers[0] + Concat(buffers[1..])
  }

  function Total(buffers: seq<seq<byte>>): (n: nat)
    ensures n == |Concat(buffers)|
  {
    if buffers == [] then 0 else |buffers[0]| + Total(buffers[1..])
  }

  lemma {:induction false} ConcatSplit(buffers: seq<seq<byte>>, i: nat)
    requires i <= |buffers|
    ensures Concat(buffers) == Concat(buffers[..i]) + Concat(buffers[i..])
    decreases i
  {
    if i != 0 {
      ConcatSplit(buffers[1..], i - 1);
      assert buffers[1..][..i - 1] == buffers[..i][1..];
      assert buffers[1..][i - 1..] == buffers[i..];
      assert Concat(buffers[..i]) == buffers[0] + Concat(buffers[..i][1..]);
    } else {
      assert buffers[0..] == buffers;
    }
  }

  lemma ConcatStep(buffers: seq<seq<byte>>, i: nat)
    requires i < |buffers|
    ensures Concat(buffers[..i + 1]) == Concat(buffers[..i]) + buffers[i]
    ensures Concat(buffers[i..]) == buffers[i] + Concat(buffers[i + 1..])
  {
    assert buffers[i..][1..] == buffers[i + 1..];
    var t := buffers[..i + 1];
    ConcatSplit(t, i);
    assert t[..i] == buffers[..i] && t[i..] == [buffers[i]];
    assert Concat([buffers[i]]) == buffers[i] + Concat([]);
  }

  /** The resume loop after a short scatter write: whole buffers are skipped while they are
      covered, the first one that is not is written from where it was cut, and every later one
      that is not empty is written whole. */
  function Pieces(buffers: seq<seq<byte>>, skip: nat): seq<seq<byte>> {
    if buffers == [] then []
    else if skip >= |buffers[0]| then Pieces(buffers[1..], skip - |buffers[0]|)
    else [buffers[0][skip..]] + Pieces(buffers[1..], 0)
  }

  /** The resumed pieces are exactly the bytes the first call left, and none of them is empty. */
  lemma {:induction false} PiecesExact(buffers: seq<seq<byte>>, skip: nat)
    requires skip <= Total(buffers)
    ensures Concat(Pieces(buffers, skip)) == Concat(buffers)[skip..]
    ensures forall i :: 0 <= i < |Pieces(buffers, skip)| ==> Pieces(buffers, skip)[i] != []
    decreases buffers
  {
    if buffers != [] {
      var b, rest := buffers[0], buffers[1..];
      if skip >= |b| {
        PiecesExact(rest, skip - |b|);
        assert (b + Concat(rest))[skip..] == Concat(rest)[skip - |b|..];
      } else {
        PiecesExact(rest, 0);
        assert Pieces(buffers, skip)[1..] == Pieces(rest, 0);
        assert (b + Concat(rest))[skip..] == b[skip..] + Concat(rest);
      }
    }
  }

  /** Writing one piece after another, each with its own loop. */
  function SendingAll(mode: Mode, pieces: seq<seq<byte>>, plan: seq<Answer>): (o: Outcome)
    ensures o.done <= Total(pieces) && (o.ok <==> o.done == Total(pieces))
  {
    if pieces == [] then Outcome(true, 0, plan)
    else
      var o := Sending(mode, |pieces[0]|, plan);
      if !o.ok then o
      else
        var p := SendingAll(mode, pieces[1..], o.plan);
        Outcome(p.ok, o.done + p.done, p.plan)
  }

  /** A whole scatter write: one call for everything, then the resume loop. */
  function Scatter(mode: Mode, buffers: seq<seq<byte>>, plan: seq<Answer>): (o: Outcome) {
    if plan == [] || !plan[0].Moved? then Outcome(false, 0, if plan == [] then [] else plan[1..])
    else
      var written := Min(plan[0].count, Total(buffers));
      var o := SendingAll(mode, Pieces(buffers, written), plan[1..]);
      Outcome(o.ok, written + o.done, o.plan)
  }

  /** A scatter write never sends more than its buffers, and succeeds exactly when it has sent
      all of them. */
  lemma ScatterExact(mode: Mode, buffers: seq<seq<byte>>, plan: seq<Answer>)
    ensures var o := Scatter(mode, buffers, plan);
      o.done <= Total(buffers) && (o.ok ==> o.done == Total(buffers))
    ensures var o := Scatter(mode, buffers, plan);
      plan != [] && plan[0].Moved? ==> (o.ok <==> o.done == Total(buffers))
  {
    if plan != [] && plan[0].Moved? {
      PiecesExact(buffers, Min(plan[0].count, Total(buffers)));
    }
  }

  lemma {:induction false} SendingAllFinishes(mode: Mode, pieces: seq<seq<byte>>, plan: seq<Answer>, n: nat)
    requires Total(pieces) <= n && Moving(plan, n) && !mode.Ssl?
    ensures SendingAll(mode, pieces, plan).ok
    decreases pieces
  {
    if pieces != [] {
      SendingFinishes(mode, |pieces[0]|, plan, n);
      SendingAllFinishes(mode, pieces[1..], Sending(mode, |pieces[0]|, plan).plan, n - |pieces[0]|);
    }
  }

  /** Any short first result and any short resumed ones: the scatter write finishes. */
  lemma ScatterFinishes(mode: Mode, buffers: seq<seq<byte>>, plan: seq<Answer>)
    requires Moving(plan, Total(buffers) + 1) && !mode.Ssl?
    ensures Scatter(mode, buffers, plan).ok
  {
    var written := Min(plan[0].count, Total(buffers));
    PiecesExact(buffers, written);
    assert Moving(plan[1..], Total(buffers));
    SendingAllFinishes(mode, Pieces(buffers, written), plan[1..], Total(buffers));
  }

  /** write_v on every kind of stream: nothing to do, one gathering call with its resume loop, or,
      through the TLS library, one gathered string with the ordinary write loop. */
  function WritingAll(mode: Mode, buffers: seq<seq<byte>>, plan: seq<Answer>): Outcome {
    if (if mode.Tcp? then buffers == [] else Total(buffers) == 0) then Outcome(true, 0, plan)
    else if mode.Ssl? then Sending(Ssl, Total(buffers), plan)
    else Scatter(mode, buffers, plan)
  }

  /** On every path nothing but a prefix of the buffers' bytes goes out, and all of them do when
      the call succeeds. */
  lemma WritingAllExact(mode: Mode, buffers: seq<seq<byte>>, plan: seq<Answer>)
    ensures var o := WritingAll(mode, buffers, plan);
      o.done <= Total(buffers) && (o.ok ==> o.done == Total(buffers))
  {
    ScatterExact(mode, buffers, plan);
  }

  // ---- Length-prefixed strings ----

  /** The 16-bit length as the machine stores it, low byte first; longer strings wrap. */
  function LengthPrefix(n: nat): (p: seq<byte>)
    ensures |p| == 2
  {
    [n % 0x1_0000 % 256, n % 0x1_0000 / 256]
  }

  function FromPrefix(low: byte, high: byte): nat {
    low as int + 256 * (high as int)
  }

  function Frame(s: seq<byte>): seq<byte> { LengthPrefix(|s|) + s }

  /** A string on the wire: its length modulo 2^16 in two bytes, the low one first, and its bytes. */
  lemma FrameLayout(s: seq<byte>)
    ensures var f := Frame(s);
            |f| == |s| + 2 && f[0] as int + 256 * f[1] as int == |s| % 0x1_0000 && f[2..] == s
  {
  }

  datatype Read = Got(value: seq<byte>, rest: seq<byte>) | Short

  /** Reading one string into a variable that holds `target`. */
  function ReadFrame(input: seq<byte>, target: seq<byte>): Read {
    if |input| < 2 then Short
    else
      var n := FromPrefix(input[0], input[1]);
      if n == 0 then Got(target, input[2..])
      else if |input| < 2 + n then Short
      else Got(input[2..2 + n], input[2 + n..])
  }

  /** What comes back of any string: with `n` its length modulo 2^16, the first `n` bytes, and whatever the
      variable held if there are none; the others are left in the stream. */
  lemma FrameGives(s: seq<byte>, target: seq<byte>, suffix: seq<byte>)
    ensures var n := |s| % 0x1_0000;
            ReadFrame(Frame(s) + suffix, target) == Got(if n == 0 then target else s[..n], s[n..] + suffix)
  {
    var n, input := |s| % 0x1_0000, Frame(s) + suffix;
    FrameLayout(s);
    assert input[2..] == s + suffix;
    assert input[2..2 + n] == (s + suffix)[..n] && input[2 + n..] == (s + suffix)[n..];
  }

  /** Exactly when a string comes back and the stream is left at the next one: it fits sixteen
      bits, and it is not an empty string read into a variable that is not empty. */
  lemma FrameReturns(s: seq<byte>, target: seq<byte>, suffix: seq<byte>)
    ensures ReadFrame(Frame(s) + suffix, target) == Got(s, suffix)
      <==> |s| <= 0xFFFF && (s == [] ==> target == [])
  {
    hide Frame, ReadFrame;
    FrameGives(s, target, suffix);
    if |s| > 0xFFFF {
      assert |s[|s| % 0x1_0000..] + suffix| > |suffix|;
    } else {
      assert s[..|s|] == s && s[|s|..] + suffix == suffix;
    }
  }

  /** Reading comes up short exactly when the two bytes, or as many bytes as they say, are not there. */
  lemma ReadsShort(input: seq<byte>, target: seq<byte>)
    ensures ReadFrame(input, target).Short? <==>
            |input| < 2 || |input| < 2 + input[0] as int + 256 * input[1] as int
  {
  }

  function Frames(strings: seq<seq<byte>>): seq<byte> {
    if strings == [] then [] else Frame(strings[0]) + Frames(strings[1..])
  }

  datatype ReadList = GotList(values: seq<seq<byte>>, rest: seq<byte>) | ShortList

  /** Reading n strings, each into an empty variable. */
  function ReadFrames(input: seq<byte>, n: nat): ReadList {
    if n == 0 then GotList([], input)
    else
      match ReadFrame(input, [])
      case Short => ShortList
      case Got(value, rest) =>
        match ReadFrames(rest, n - 1)
        case ShortList => ShortList
        case GotList(values, left) => GotList([value] + values, left)
  }

  lemma Reassociated(a: seq<byte>, b: seq<byte>, c: seq<byte>)
    ensures (a + b) + c == a + (b + c)
  {
  }

  /** Reading the first of several frames and then the others. */
  lemma {:induction false} ReadFirst(s: seq<byte>, more: seq<byte>, n: nat, values: seq<seq<byte>>, left: seq<byte>)
    requires |s| <= 0xFFFF && ReadFrames(more, n) == GotList(values, left)
    ensures ReadFrames(Frame(s) + more, n + 1) == GotList([s] + values, left)
  {
    FrameReturns(s, [], more);
  }

  /** Every list of strings that fit comes back, and what follows is left exactly. */
  lemma {:induction false} FramesReturn(strings: seq<seq<byte>>, suffix: seq<byte>)
    requires forall i :: 0 <= i < |strings| ==> |strings[i]| <= 0xFFFF
    ensures ReadFrames(Frames(strings) + suffix, |strings|) == GotList(strings, suffix)
    decreases |strings|
  {
    if strings == [] {
      assert Frames(strings) + suffix == suffix;
    } else {
      var s, rest := strings[0], strings[1..];
      FramesReturn(rest, suffix);
      ReadFirst(s, Frames(rest) + suffix, |rest|, rest, suffix);
      Reassociated(Frame(s), Frames(rest), suffix);
      assert strings == [s] + rest;
    }
  }
}
