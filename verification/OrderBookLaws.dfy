/** What a book holds, in plain words: the sums of the deltas at each price since the last deletion or
    snapshot, and where one delta level lands. */
module OrderBookLaws {
  import opened Levels
  import opened OrderBookModel

  // ---- Quantities as sums ----

  /** The levels at a price, added up. */
  ghost function SumAt(ls: seq<Level>, p: real): real {
    if ls == [] then 0.0 else SumAt(ls[..|ls| - 1], p) + if ls[|ls| - 1].prx == p then ls[|ls| - 1].qt else 0.0
  }

  ghost predicate Deletes(ls: seq<Level>, p: real) {
    exists i :: 0 <= i < |ls| && ls[i].prx == p && ls[i].qt == 0.0
  }

  lemma DeletesLast(ls: seq<Level>, p: real)
    requires ls != []
    ensures Deletes(ls, p) <==> Deletes(ls[..|ls| - 1], p) || (ls[|ls| - 1].prx == p && ls[|ls| - 1].qt == 0.0)
    ensures HasPrice(ls, p) <==> HasPrice(ls[..|ls| - 1], p) || ls[|ls| - 1].prx == p
  {
    var n := |ls| - 1;
    forall i | 0 <= i < n
      ensures ls[..n][i] == ls[i]
    {
    }
    if HasPrice(ls[..n], p) {
      var i :| 0 <= i < n && ls[..n][i].prx == p;
      assert ls[i].prx == p;
    }
    if Deletes(ls[..n], p) {
      var i :| 0 <= i < n && ls[..n][i].prx == p && ls[..n][i].qt == 0.0;
      assert ls[i].prx == p && ls[i].qt == 0.0;
    }
    if Deletes(ls, p) {
      var i :| 0 <= i < |ls| && ls[i].prx == p && ls[i].qt == 0.0;
      assert i < n ==> ls[..n][i].prx == p && ls[..n][i].qt == 0.0;
    }
    if HasPrice(ls, p) {
      var i :| 0 <= i < |ls| && ls[i].prx == p;
      assert i < n ==> ls[..n][i].prx == p;
    }
  }

  /** Deltas that do not delete a price add up there. */
  lemma {:induction false} DeltasAdd(m: map<real, real>, ls: seq<Level>, p: real)
    requires !Deletes(ls, p)
    ensures p in Deltas(m, ls) <==> p in m || HasPrice(ls, p)
    ensures p in Deltas(m, ls) ==> Deltas(m, ls)[p] == (if p in m then m[p] else 0.0) + SumAt(ls, p)
    decreases |ls|
  {
    if ls == [] {
      assert !HasPrice(ls, p);
    } else {
      DeletesLast(ls, p);
      DeltasAdd(m, ls[..|ls| - 1], p);
      if !(p in m) && !HasPrice(ls[..|ls| - 1], p) {
        NothingToSum(ls[..|ls| - 1], p);
      }
    }
  }

  lemma {:induction false} NothingToSum(ls: seq<Level>, p: real)
    requires !HasPrice(ls, p)
    ensures SumAt(ls, p) == 0.0
    decreases |ls|
  {
    if ls != [] {
      DeletesLast(ls, p);
      NothingToSum(ls[..|ls| - 1], p);
    }
  }

  lemma {:induction false} DeltasTwice(m: map<real, real>, a: seq<Level>, b: seq<Level>)
    ensures Deltas(m, a + b) == Deltas(Deltas(m, a), b)
    decreases |b|
  {
    if b == [] {
      assert a + b == a;
    } else {
      assert (a + b)[..|a + b| - 1] == a + b[..|b| - 1];
      DeltasTwice(m, a, b[..|b| - 1]);
    }
  }

  /** A deletion forgets what was there before. */
  lemma DeltasForget(m: map<real, real>, a: seq<Level>, p: real, b: seq<Level>)
    requires !Deletes(b, p)
    ensures var q := Deltas(m, a + [Level(p, 0.0)] + b);
            (p in q <==> HasPrice(b, p)) && (p in q ==> q[p] == SumAt(b, p))
  {
    var z := [Level(p, 0.0)];
    DeltasTwice(m, a + z, b);
    DeltasTwice(m, a, z);
    assert z[..0] == [];
    assert p !in Deltas(m, a + z);
    DeltasAdd(Deltas(m, a + z), b, p);
  }

  // ---- Runs ----

  function AllBids(ms: seq<Message>): seq<Level> {
    if ms == [] then [] else AllBids(ms[..|ms| - 1]) + ms[|ms| - 1].bids
  }

  function AllAsks(ms: seq<Message>): seq<Level> {
    if ms == [] then [] else AllAsks(ms[..|ms| - 1]) + ms[|ms| - 1].asks
  }

  lemma {:induction false} MapsAreDeltas(q: map<real, real>, ms: seq<Message>)
    requires forall i :: 0 <= i < |ms| ==> !ms[i].full
    ensures BidMap(q, ms) == Deltas(q, AllBids(ms)) && AskMap(q, ms) == Deltas(q, AllAsks(ms))
    decreases |ms|
  {
    if ms != [] {
      var n := |ms| - 1;
      MapsAreDeltas(q, ms[..n]);
      DeltasTwice(q, AllBids(ms[..n]), ms[n].bids);
      DeltasTwice(q, AllAsks(ms[..n]), ms[n].asks);
    }
  }

  lemma {:induction false} MapsFrom(q: map<real, real>, before: seq<Message>, s: Message, ms: seq<Message>)
    requires s.full
    ensures BidMap(q, before + [s] + ms) == BidMap(Quantities(s.bids), ms)
    ensures AskMap(q, before + [s] + ms) == AskMap(Quantities(s.asks), ms)
    decreases |ms|
  {
    var all := before + [s] + ms;
    if ms == [] {
      assert all == before + [s] && all[..|all| - 1] == before;
    } else {
      assert all[..|all| - 1] == before + [s] + ms[..|ms| - 1];
      MapsFrom(q, before, s, ms[..|ms| - 1]);
    }
  }

  /** The quantity at a price that no later delta deletes: the snapshot's, with every delta since. */
  ghost predicate HoldsAt(s: seq<Level>, shot: seq<Level>, ls: seq<Level>, p: real) {
    && (HasPrice(s, p) <==> HasPrice(shot, p) || HasPrice(ls, p))
    && forall i :: 0 <= i < |s| && s[i].prx == p ==> s[i].qt == SumAt(shot, p) + SumAt(ls, p)
  }

  lemma {:induction false} QuantitySum(s: seq<Level>, p: real)
    requires Distinct(s)
    ensures p in Quantities(s) <==> HasPrice(s, p)
    ensures p in Quantities(s) ==> Quantities(s)[p] == SumAt(s, p)
    ensures p !in Quantities(s) ==> SumAt(s, p) == 0.0
    decreases |s|
  {
    if s != [] {
      var n := |s| - 1;
      DeletesLast(s, p);
      QuantitySum(s[..n], p);
      if HasPrice(s[..n], p) {
        var i :| 0 <= i < n && s[..n][i].prx == p;
        assert s[i].prx == p;
      }
    }
  }

  lemma SideHolds(s: seq<Level>, shot: seq<Level>, ls: seq<Level>, p: real)
    requires Distinct(s) && Distinct(shot) && !Deletes(ls, p)
    requires Quantities(s) == Deltas(Quantities(shot), ls)
    ensures HoldsAt(s, shot, ls, p)
  {
    QuantitySum(shot, p);
    DeltasAdd(Quantities(shot), ls, p);
    QuantitiesShow(s);
    QuantitySum(s, p);
  }

  /** After any run of fitting deltas: at every price that none of them deletes, each side holds what it
      held before and the deltas, added up. */
  lemma DeltasHold(b: Book, ms: seq<Message>, p: real)
    requires Sorted(b) && RunFits(b, ms) && forall i :: 0 <= i < |ms| ==> !ms[i].full
    ensures !Deletes(AllBids(ms), p) ==> HoldsAt(Run(b, ms).bids, b.bids, AllBids(ms), p)
    ensures !Deletes(AllAsks(ms), p) ==> HoldsAt(Run(b, ms).asks, b.asks, AllAsks(ms), p)
  {
    RunMeans(b, ms);
    MapsAreDeltas(Quantities(b.bids), ms);
    MapsAreDeltas(Quantities(b.asks), ms);
    AscendingDistinct(b.bids);
    DescendingDistinct(b.asks);
    if !Deletes(AllBids(ms), p) {
      SideHolds(Run(b, ms).bids, b.bids, AllBids(ms), p);
    }
    if !Deletes(AllAsks(ms), p) {
      SideHolds(Run(b, ms).asks, b.asks, AllAsks(ms), p);
    }
  }

  lemma SnapshotDistinct(b: Book, before: seq<Message>, s: Message, ms: seq<Message>)
    requires s.full && RunFits(b, before + [s] + ms)
    ensures Distinct(s.bids) && Distinct(s.asks)
  {
    var all := before + [s] + ms;
    assert all[..|before|] == before && all[|before|] == s;
    assert Fits(Run(b, all[..|before|]), all[|before|]);
    DescendingDistinct(s.bids);
    AscendingDistinct(s.asks);
  }

  /** After any run whose last snapshot is `s`, whatever came before: the snapshot's quantity and the
      deltas' since then. */
  lemma SnapshotHolds(b: Book, before: seq<Message>, s: Message, ms: seq<Message>, p: real)
    requires Sorted(b) && RunFits(b, before + [s] + ms) && s.full && forall i :: 0 <= i < |ms| ==> !ms[i].full
    ensures var r := Run(b, before + [s] + ms);
            && (!Deletes(AllBids(ms), p) ==> HoldsAt(r.bids, s.bids, AllBids(ms), p))
            && (!Deletes(AllAsks(ms), p) ==> HoldsAt(r.asks, s.asks, AllAsks(ms), p))
  {
    var all := before + [s] + ms;
    RunMeans(b, all);
    SnapshotDistinct(b, before, s, ms);
    MapsFrom(Quantities(b.bids), before, s, ms);
    MapsFrom(Quantities(b.asks), before, s, ms);
    MapsAreDeltas(Quantities(s.bids), ms);
    MapsAreDeltas(Quantities(s.asks), ms);
    if !Deletes(AllBids(ms), p) {
      SideHolds(Run(b, all).bids, s.bids, AllBids(ms), p);
    }
    if !Deletes(AllAsks(ms), p) {
      SideHolds(Run(b, all).asks, s.asks, AllAsks(ms), p);
    }
  }

  lemma SideForgets(s: seq<Level>, m: map<real, real>, a: seq<Level>, p: real, c: seq<Level>)
    requires Distinct(s) && Quantities(s) == Deltas(m, a + [Level(p, 0.0)] + c) && !Deletes(c, p)
    ensures HoldsAt(s, [], c, p)
  {
    DeltasForget(m, a, p, c);
    QuantitiesShow(s);
    QuantitySum(s, p);
  }

  /** A price that a delta has deleted: only the deltas behind the deletion count. */
  lemma DeletionForgets(b: Book, ms: seq<Message>, a: seq<Level>, p: real, c: seq<Level>)
    requires Sorted(b) && RunFits(b, ms) && (forall i :: 0 <= i < |ms| ==> !ms[i].full) && !Deletes(c, p)
    ensures AllBids(ms) == a + [Level(p, 0.0)] + c ==> HoldsAt(Run(b, ms).bids, [], c, p)
    ensures AllAsks(ms) == a + [Level(p, 0.0)] + c ==> HoldsAt(Run(b, ms).asks, [], c, p)
  {
    RunMeans(b, ms);
    MapsAreDeltas(Quantities(b.bids), ms);
    MapsAreDeltas(Quantities(b.asks), ms);
    if AllBids(ms) == a + [Level(p, 0.0)] + c {
      SideForgets(Run(b, ms).bids, Quantities(b.bids), a, p, c);
    }
    if AllAsks(ms) == a + [Level(p, 0.0)] + c {
      SideForgets(Run(b, ms).asks, Quantities(b.asks), a, p, c);
    }
  }
}
