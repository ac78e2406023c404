/** How far the stream loops get, in every mode and whatever is answered: which answers end a loop, which
    are passed over, and when a write, a read or a gathered write succeeds. */
module StreamReach {
  import opened Bits
  import opened StreamModel

  /** The answers that end a loop: a failure; moving nothing, except in a plain write, which repeats; and,
      except through the TLS library, being asked to try again. */
  predicate Stops(mode: Mode, reading: bool, answer: Answer) {
    match answer
    case Failed => true
    case Again => !mode.Ssl?
    case Moved(n) => n == 0 && (reading || !mode.Tcp?)
  }

  function Gives(answer: Answer): nat { if answer.Moved? then answer.count else 0 }

  /** The bytes that the answers before the first of those can move. */
  function Reach(mode: Mode, reading: bool, plan: seq<Answer>): nat {
    if plan == [] || Stops(mode, reading, plan[0]) then 0
    else Gives(plan[0]) + Reach(mode, reading, plan[1..])
  }

  /** What can ever be asked for: through the TLS library, whose lengths are cast to int, the low 32 bits
      of the length, and nothing if these are negative. */
  function Bound(mode: Mode, length: nat): nat {
    if !mode.Ssl? then length
    else if length % 0x1_0000_0000 < 0x8000_0000 then length % 0x1_0000_0000
    else 0
  }

  lemma BoundLess(mode: Mode, length: nat, k: nat)
    requires k <= Bound(mode, length)
    ensures Bound(mode, length) == Request(mode, length) <= length
    ensures Bound(mode, length - k) == Bound(mode, length) - k
  {
  }

  lemma BoundIsLength(mode: Mode, length: nat)
    ensures Bound(mode, length) == length <==> (mode.Ssl? ==> length < 0x8000_0000)
  {
  }

  /** One answer to a write. */
  lemma TurnIs(mode: Mode, reading: bool, answer: Answer, rest: nat)
    requires rest > 0
    ensures var k, b := Turn(mode, reading, answer, rest), Bound(mode, rest);
            if Stops(mode, reading, answer) then k == -1
            else if answer.Moved? && b == 0 then k == -1
            else k == Min(Gives(answer), b)
  {
    BoundLess(mode, rest, 0);
  }

  lemma ArrivingIs(mode: Mode, answer: Answer, rest: nat, available: nat)
    requires rest > 0
    ensures var k, b := Arriving(mode, answer, rest, available), Min(Bound(mode, rest), available);
            if Stops(mode, true, answer) then k == -1
            else if answer.Moved? && b == 0 then k == -1
            else k == Min(Gives(answer), b)
  {
    TurnIs(mode, true, if answer.Moved? then Moved(Min(answer.count, available)) else answer, rest);
  }

  /** A write gets exactly as far as the answers before the first that ends it, and succeeds exactly when
      these reach its end, and the length fits an int where it is cast to one. */
  lemma {:induction false} SendingExact(mode: Mode, length: nat, plan: seq<Answer>)
    ensures var o := Sending(mode, length, plan);
            && o.done == Min(Bound(mode, length), Reach(mode, false, plan))
            && (o.ok <==> (mode.Ssl? ==> length < 0x8000_0000) && Reach(mode, false, plan) >= length)
    decreases |plan|
  {
    hide Turn, Bound, Stops, Request;
    BoundIsLength(mode, length);
    BoundLess(mode, length, 0);
    if length != 0 && plan != [] {
      var k := Turn(mode, false, plan[0], length);
      TurnIs(mode, false, plan[0], length);
      if k >= 0 {
        BoundLess(mode, length, k);
        SendingExact(mode, length - k, plan[1..]);
      }
    }
  }

  lemma MinStep(b: nat, a: nat, g: nat, r: nat)
    ensures var k := Min(g, Min(b, a)); Min(Min(b, a), g + r) == k + Min(Min(b - k, a - k), r)
    ensures Min(Min(b, a), 0) == 0 == Min(0, r)
  {
  }

  lemma {:induction false} ReceivingDone(mode: Mode, length: nat, available: nat, plan: seq<Answer>)
    ensures Receiving(mode, length, available, plan).done
            == Min(Min(Bound(mode, length), available), Reach(mode, true, plan))
    decreases |plan|
  {
    hide Turn, Bound, Stops, Request, Arriving;
    BoundLess(mode, length, 0);
    if length != 0 && plan != [] {
      hide Receiving, Min;
      var k := Arriving(mode, plan[0], length, available);
      ArrivingIs(mode, plan[0], length, available);
      ReceivingTurn(mode, length, available, plan, Receiving(mode, length, available, plan), 0);
      if k >= 0 {
        BoundLess(mode, length, k);
        ReceivingDone(mode, length - k, available - k, plan[1..]);
        MinStep(Bound(mode, length), available, Gives(plan[0]), Reach(mode, true, plan[1..]));
      }
    }
  }

  /** A read in the same way, as far as bytes arrive. */
  lemma ReceivingExact(mode: Mode, length: nat, available: nat, plan: seq<Answer>)
    ensures var o := Receiving(mode, length, available, plan);
            && o.done == Min(Min(Bound(mode, length), available), Reach(mode, true, plan))
            && (o.ok <==>
                  (mode.Ssl? ==> length < 0x8000_0000) && available >= length && Reach(mode, true, plan) >= length)
  {
    hide Bound, Reach, Receiving;
    ReceivingDone(mode, length, available, plan);
    BoundIsLength(mode, length);
    BoundLess(mode, length, 0);
  }

  /** Through the TLS library, any number of requests to try again changes nothing. */
  lemma {:induction false} AgainsPassOver(length: nat, available: nat, agains: seq<Answer>, plan: seq<Answer>)
    requires forall i :: 0 <= i < |agains| ==> agains[i] == Again
    ensures Sending(Ssl, length, agains + plan).done == Sending(Ssl, length, plan).done
    ensures Receiving(Ssl, length, available, agains + plan).done == Receiving(Ssl, length, available, plan).done
    decreases |agains|
  {
    if agains == [] {
      assert agains + plan == plan;
    } else {
      AgainsPassOver(length, available, agains[1..], plan);
      assert (agains + plan)[1..] == agains[1..] + plan;
      SendingExact(Ssl, length, agains + plan);
      SendingExact(Ssl, length, agains[1..] + plan);
      ReceivingExact(Ssl, length, available, agains + plan);
      ReceivingExact(Ssl, length, available, agains[1..] + plan);
    }
  }

  // ---- Gathered writes ----

  /** What the answers can move together. */
  function Sum(plan: seq<Answer>): nat { if plan == [] then 0 else Gives(plan[0]) + Sum(plan[1..]) }

  /** These answers, and no fewer, serve a write of `length` bytes. */
  ghost predicate Serves(mode: Mode, length: nat, plan: seq<Answer>) {
    && (forall i :: 0 <= i < |plan| ==> !Stops(mode, false, plan[i]))
    && Sum(plan) >= length
    && forall i :: 0 <= i < |plan| ==> Sum(plan[..i]) < length
  }

  lemma ServesNext(mode: Mode, length: nat, plan: seq<Answer>)
    requires plan != [] && Gives(plan[0]) < length
    ensures Serves(mode, length, plan) <==>
            !Stops(mode, false, plan[0]) && Serves(mode, length - Gives(plan[0]), plan[1..])
  {
    var g, rest := Gives(plan[0]), plan[1..];
    forall i | 0 <= i < |rest|
      ensures Sum(plan[..i + 1]) == g + Sum(rest[..i]) && plan[i + 1] == rest[i]
    {
      assert plan[..i + 1][1..] == rest[..i];
    }
    if Serves(mode, length, plan) {
      forall i | 0 <= i < |rest|
        ensures Sum(rest[..i]) < length - g && !Stops(mode, false, rest[i])
      {
        assert Sum(plan[..i + 1]) < length && !Stops(mode, false, plan[i + 1]);
      }
    }
    if !Stops(mode, false, plan[0]) && Serves(mode, length - g, rest) {
      forall i | 0 <= i < |plan|
        ensures Sum(plan[..i]) < length && !Stops(mode, false, plan[i])
      {
        if i > 0 {
          assert Sum(rest[..i - 1]) < length - g && !Stops(mode, false, rest[i - 1]);
        }
      }
    }
  }

  lemma ServesAtOnce(mode: Mode, length: nat, plan: seq<Answer>)
    requires length > 0 && plan != [] && Gives(plan[0]) >= length
    ensures Serves(mode, length, plan) <==> |plan| == 1 && !Stops(mode, false, plan[0])
  {
    if |plan| > 1 {
      assert plan[..1] == [plan[0]];
      assert Sum(plan[..1]) >= length;
    } else {
      assert plan[..0] == [];
    }
  }

  /** Exactly the first `n` answers are used up, and the write succeeds. */
  ghost predicate Takes(mode: Mode, length: nat, plan: seq<Answer>, n: nat)
    requires n <= |plan|
  {
    var o := Sending(mode, length, plan);
    o.ok && o.plan == plan[n..] && |o.plan| == |plan| - n
  }

  lemma TakesNone(mode: Mode, length: nat, plan: seq<Answer>, n: nat)
    requires n <= |plan| && (length == 0 || n == 0)
    ensures Serves(mode, length, plan[..n]) <==> Takes(mode, length, plan, n)
    ensures length == 0 ==> (Takes(mode, length, plan, n) <==> n == 0)
  {
    if length == 0 {
      assert n > 0 ==> Sum(plan[..n][..0]) >= length;
      assert n == 0 ==> plan[..n] == [] && plan[n..] == plan;
    } else {
      assert plan[..n] == [];
      ShorterPlan(mode, length, plan);
    }
  }

  lemma TakesNext(mode: Mode, length: nat, plan: seq<Answer>, n: nat)
    requires 0 < n <= |plan| && length > 0
    ensures var k := Turn(mode, false, plan[0], length);
            Takes(mode, length, plan, n) <==> k >= 0 && Takes(mode, length - k, plan[1..], n - 1)
  {
    assert plan[n..] == plan[1..][n - 1..];
  }

  /** A plain write succeeds exactly when some of the next answers serve it, and leaves the others. */
  lemma {:induction false} SendingServed(mode: Mode, length: nat, plan: seq<Answer>, n: nat)
    requires !mode.Ssl? && n <= |plan|
    ensures Serves(mode, length, plan[..n]) <==> Takes(mode, length, plan, n)
    decreases |plan|
  {
    hide Takes, Serves, Turn, Stops;
    if length == 0 || n == 0 {
      TakesNone(mode, length, plan, n);
    } else {
      var k := Turn(mode, false, plan[0], length);
      TurnIs(mode, false, plan[0], length);
      TakesNext(mode, length, plan, n);
      assert plan[..n][1..] == plan[1..][..n - 1];
      if Gives(plan[0]) >= length {
        ServesAtOnce(mode, length, plan[..n]);
        if k >= 0 {
          TakesNone(mode, 0, plan[1..], n - 1);
        }
      } else {
        ServesNext(mode, length, plan[..n]);
        if k >= 0 {
          SendingServed(mode, length - k, plan[1..], n - 1);
        }
      }
    }
  }

  lemma {:induction false} ShorterPlan(mode: Mode, length: nat, plan: seq<Answer>)
    ensures var o := Sending(mode, length, plan); |o.plan| <= |plan| && (length > 0 && o.ok ==> |o.plan| < |plan|)
    ensures var o := Sending(mode, length, plan); o.plan == plan[|plan| - |o.plan|..]
    decreases |plan|
  {
    if length != 0 && plan != [] {
      var k := Turn(mode, false, plan[0], length);
      if k >= 0 {
        ShorterPlan(mode, length - k, plan[1..]);
      }
    }
  }

  /** The answers serve the pieces, one after the other. */
  ghost predicate ServedAll(mode: Mode, pieces: seq<seq<byte>>, plan: seq<Answer>) {
    pieces == [] || exists n :: 0 <= n <= |plan| && Serves(mode, |pieces[0]|, plan[..n])
                                && ServedAll(mode, pieces[1..], plan[n..])
  }

  lemma {:induction false} SendingAllServed(mode: Mode, pieces: seq<seq<byte>>, plan: seq<Answer>)
    requires !mode.Ssl?
    ensures SendingAll(mode, pieces, plan).ok <==> ServedAll(mode, pieces, plan)
  {
    if pieces != [] {
      var o := Sending(mode, |pieces[0]|, plan);
      ShorterPlan(mode, |pieces[0]|, plan);
      forall n | 0 <= n <= |plan|
        ensures Serves(mode, |pieces[0]|, plan[..n]) <==> o.ok && n == |plan| - |o.plan|
      {
        SendingServed(mode, |pieces[0]|, plan, n);
      }
      SendingAllServed(mode, pieces[1..], o.plan);
    }
  }

  /** When write_v succeeds. Through the TLS library: nothing is to do, or the answers reach the end of the
      bytes and their number fits an int. Otherwise: nothing is to do, or the first answer moves some of
      the bytes, be it none, and the next ones serve what is left, piece by piece. */
  lemma WritingAllIff(mode: Mode, buffers: seq<seq<byte>>, plan: seq<Answer>)
    ensures var ok, n := WritingAll(mode, buffers, plan).ok, Total(buffers);
            && (mode.Ssl? ==> (ok <==> n == 0 || (n < 0x8000_0000 && Reach(Ssl, false, plan) >= n)))
            && (!mode.Ssl? ==>
                  (ok <==> (if mode.Tcp? then buffers == [] else n == 0)
                           || (plan != [] && plan[0].Moved?
                               && ServedAll(mode, Pieces(buffers, Min(plan[0].count, n)), plan[1..]))))
  {
    SendingExact(Ssl, Total(buffers), plan);
    if !mode.Ssl? && plan != [] && plan[0].Moved? {
      SendingAllServed(mode, Pieces(buffers, Min(plan[0].count, Total(buffers))), plan[1..]);
    }
  }
}
