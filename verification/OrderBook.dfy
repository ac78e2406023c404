/** The order book of samples/order_book_ws.cpp: bids kept ascending and asks descending, each
    changed in place by its own algorithm. */
module OrderBook {
  import opened Levels
  import opened OrderBookModel

  function Resized(s: seq<Level>, n: nat): (r: seq<Level>)
    ensures |r| == n
  {
    if n <= |s| then s[..n] else s + seq(n - |s|, _ => Level(0.0, 0.0))
  }

  /** std::copy_n to the reversed side. */
  method CopyBackwards(s: seq<Level>, ls: seq<Level>) returns (r: seq<Level>)
    ensures r == Reverse(ls)
  {
    var n := |ls|;
    r := Resized(s, n);
    var i := 0;
    while i < n
      invariant 0 <= i <= n == |r|
      invariant forall j :: 0 <= j < i ==> r[n - 1 - j] == ls[j]
    {
      r := r[n - 1 - i := ls[i]];
      i := i + 1;
    }
    assert forall j :: 0 <= j < n ==> r[j] == r[n - 1 - (n - 1 - j)];
  }

  lemma {:induction false} BidStepSplits(s: seq<Level>, k: nat, b: Level)
    requires k <= |s|
    requires forall j :: k <= j < |s| ==> s[j].prx > b.prx
    ensures BidStep(s, b) == BidStep(s[..k], b) + s[k..]
    decreases |s|
  {
    var n := |s| - 1;
    if k < |s| {
      BidStepSplits(s[..n], k, b);
      assert s[..n][..k] == s[..k];
      assert s[..n][k..] + [s[n]] == s[k..];
    } else {
      assert s[..k] == s;
    }
  }

  /** What a bid does where the scan stops, `x` being the level found there and `s` those below. */
  function BidAt(s: seq<Level>, x: Level, b: Level): seq<Level> {
    if x.prx < b.prx then if b.qt != 0.0 then s + [x] + [b] else s + [x]
    else if b.qt == 0.0 then s
    else s + [Level(b.prx, x.qt + b.qt)]
  }

  lemma BestBidStep(s: seq<Level>, x: Level, b: Level)
    requires x.prx <= b.prx
    ensures BidStep(s + [x], b) == BidAt(s, x, b)
  {
    assert (s + [x])[..|s|] == s;
  }

  lemma TakeOneMore(s: seq<Level>, k: nat)
    requires k < |s|
    ensures s[..k + 1] == s[..k] + [s[k]]
  {
  }

  lemma ReplaceAt(s: seq<Level>, k: nat, x: Level)
    requires k < |s|
    ensures s[k := x] == s[..k] + [x] + s[k + 1..]
  {
  }

  /** Where the scan from the back stops. */
  lemma BidStepAt(s: seq<Level>, k: nat, b: Level)
    requires k < |s| && s[k].prx <= b.prx
    requires forall j :: k < j < |s| ==> s[j].prx > b.prx
    ensures BidStep(s, b) == BidAt(s[..k], s[k], b) + s[k + 1..]
  {
    BidStepSplits(s, k + 1, b);
    TakeOneMore(s, k);
    BestBidStep(s[..k], s[k], b);
  }

  lemma FoldStep(step: (seq<Level>, Level) -> seq<Level>, s: seq<Level>, ls: seq<Level>, i: nat)
    requires i < |ls|
    ensures Fold(step, s, ls[..i + 1]) == step(Fold(step, s, ls[..i]), ls[i])
  {
    assert ls[..i + 1][..i] == ls[..i];
  }

  class OrderBook {
    var bids: seq<Level>  // m_bids, ascending
    var asks: seq<Level>  // m_asks, descending

    constructor ()
      ensures bids == [] && asks == []
    {
      bids, asks := [], [];
    }

    ghost function Value(): Book
      reads this
    {
      Book(bids, asks)
    }

    /** The scan has stopped at index i. */
    method ApplyBidAt(i: nat, b: Level)
      requires i < |bids| && bids[i].prx <= b.prx
      requires forall j :: i < j < |bids| ==> bids[j].prx > b.prx
      modifies this`bids
      ensures bids == BidStep(old(bids), b)
    {
      BidStepAt(bids, i, b);
      if bids[i].prx < b.prx {
        assert bids[..i] + [bids[i]] == bids[..i + 1];
        if b.qt != 0.0 {
          bids := InsertAt(bids, i + 1, b);
        }
      } else if b.qt == 0.0 {
        bids := EraseAt(bids, i);
      } else {
        ReplaceAt(bids, i, Level(b.prx, bids[i].qt + b.qt));
        bids := AddAt(bids, i, b);
      }
    }

    method ApplyBid(b: Level)
      modifies this`bids
      ensures bids == BidStep(old(bids), b)
    {
      var k := |bids|;
      while k > 0
        invariant 0 <= k <= |bids| && bids == old(bids)
        invariant forall j :: k <= j < |bids| ==> bids[j].prx > b.prx
      {
        if bids[k - 1].prx <= b.prx {
          ApplyBidAt(k - 1, b);
          return;
        }
        k := k - 1;
      }
      BidStepSplits(bids, 0, b);
      if b.qt != 0.0 {
        bids := InsertAt(bids, 0, b);
      }
    }

    method ApplyBids(ls: seq<Level>)
      modifies this`bids
      ensures bids == BidsAfter(old(bids), ls)
    {
      var i := 0;
      if bids == [] {
        while i < |ls|
          invariant 0 <= i <= |ls| && bids == FrontFold(ls[..i])
        {
          FoldStep(FrontStep, [], ls, i);
          if ls[i].qt != 0.0 {
            bids := [ls[i]] + bids;
          }
          i := i + 1;
        }
        assert ls[..|ls|] == ls;
        return;
      }
      while i < |ls|
        invariant 0 <= i <= |ls| && bids == BidFold(old(bids), ls[..i])
      {
        FoldStep(BidStep, old(bids), ls, i);
        ApplyBid(ls[i]);
        i := i + 1;
      }
      assert ls[..|ls|] == ls;
    }

    method ApplyAsk(a: Level)
      modifies this`asks
      ensures asks == AskStep(old(asks), a)
    {
      var handled := false;
      var i := 0;
      while i < |asks|
        invariant 0 <= i <= |asks| && asks == old(asks) && !handled
        invariant forall j :: 0 <= j < i ==> asks[j].prx != a.prx
      {
        if asks[i].prx == a.prx {
          if a.qt == 0.0 {
            asks := EraseAt(asks, i);
          } else {
            asks := AddAt(asks, i, a);
          }
          handled := true;
          break;
        }
        i := i + 1;
      }
      if handled || a.qt == 0.0 {
        return;
      }
      var pos := 0;
      while pos < |asks|
        invariant 0 <= pos <= |asks|
        invariant forall j :: 0 <= j < pos ==> asks[j].prx >= a.prx
      {
        if asks[pos].prx < a.prx {
          break;
        }
        pos := pos + 1;
      }
      asks := InsertAt(asks, pos, a);
    }

    method ApplyAsks(ls: seq<Level>)
      modifies this`asks
      ensures asks == AsksAfter(old(asks), ls)
    {
      var i := 0;
      if asks == [] {
        while i < |ls|
          invariant 0 <= i <= |ls| && asks == FrontFold(ls[..i])
        {
          FoldStep(FrontStep, [], ls, i);
          if ls[i].qt != 0.0 {
            asks := [ls[i]] + asks;
          }
          i := i + 1;
        }
        assert ls[..|ls|] == ls;
        return;
      }
      while i < |ls|
        invariant 0 <= i <= |ls| && asks == AskFold(old(asks), ls[..i])
      {
        FoldStep(AskStep, old(asks), ls, i);
        ApplyAsk(ls[i]);
        i := i + 1;
      }
      assert ls[..|ls|] == ls;
    }

    method ApplyMessage(m: Message)
      modifies this
      ensures Value() == Apply(old(Value()), m)
    {
      if m.full {
        if m.asks == [] {
          asks := [];
        } else {
          asks := CopyBackwards(asks, m.asks);
        }
        if m.bids == [] {
          bids := [];
        } else {
          bids := CopyBackwards(bids, m.bids);
        }
        return;
      }
      if m.bids != [] {
        ApplyBids(m.bids);
      }
      if m.asks != [] {
        ApplyAsks(m.asks);
      }
    }

    /** The book after a run of fitting messages. */
    method Replay(ms: seq<Message>)
      requires Sorted(Value()) && RunFits(Value(), ms)
      modifies this
      ensures Sorted(Value())
      ensures Quantities(bids) == BidMap(old(Quantities(bids)), ms)
      ensures Quantities(asks) == AskMap(old(Quantities(asks)), ms)
    {
      var i := 0;
      ghost var start := Value();
      while i < |ms|
        invariant 0 <= i <= |ms| && Value() == Run(start, ms[..i])
      {
        assert ms[..i + 1][..i] == ms[..i];
        ApplyMessage(ms[i]);
        i := i + 1;
      }
      assert ms[..|ms|] == ms;
      RunMeans(start, ms);
    }
  }
}
