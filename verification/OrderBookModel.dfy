/** The two delta algorithms of samples/order_book_ws.cpp, the empty-book fast path and snapshots,
    as functions on levels, against one map from price to quantity. */
module OrderBookModel {
  import opened Levels

  // ---- One delta level, by each algorithm ----

  /** apply_bids' general step: scan from the best bid (the back) down; the first price below
      the new one is where it goes, an equal price is added to or erased, and a scan that falls
      through puts it in front. */
  function BidStep(s: seq<Level>, b: Level): seq<Level> {
    if s == [] then
      if b.qt != 0.0 then [b] else []
    else
      var n := |s| - 1;
      if s[n].prx < b.prx then
        if b.qt != 0.0 then s + [b] else s
      else if s[n].prx == b.prx then
        if b.qt == 0.0 then s[..n] else s[..n] + [Level(b.prx, s[n].qt + b.qt)]
      else
        BidStep(s[..n], b) + [s[n]]
  }

  /** The first index with that price, or the length. */
  function FindPrice(s: seq<Level>, p: real): (i: nat)
    ensures i <= |s| && (i < |s| ==> s[i].prx == p)
    ensures forall j :: 0 <= j < i ==> s[j].prx != p
  {
    if s == [] || s[0].prx == p then 0 else FindPrice(s[1..], p) + 1
  }

  /** The first index with a lower price, or the length. */
  function FindBelow(s: seq<Level>, p: real): (i: nat)
    ensures i <= |s| && (i < |s| ==> s[i].prx < p)
    ensures forall j :: 0 <= j < i ==> s[j].prx >= p
  {
    if s == [] || s[0].prx < p then 0 else FindBelow(s[1..], p) + 1
  }

  /** apply_asks' general step: one scan from the front for an equal price, and a second one for
      the first lower price when there was none. */
  function AskStep(s: seq<Level>, a: Level): seq<Level> {
    var i := FindPrice(s, a.prx);
    if i < |s| then
      if a.qt == 0.0 then EraseAt(s, i) else AddAt(s, i, a)
    else if a.qt == 0.0 then s
    else InsertAt(s, FindBelow(s, a.prx), a)
  }

  /** The empty-book fast path: every level with a quantity goes in front. */
  function FrontStep(s: seq<Level>, l: Level): seq<Level> {
    if l.qt != 0.0 then [l] + s else s
  }

  function Fold(step: (seq<Level>, Level) -> seq<Level>, s: seq<Level>, ls: seq<Level>): seq<Level> {
    if ls == [] then s else step(Fold(step, s, ls[..|ls| - 1]), ls[|ls| - 1])
  }

  function BidFold(s: seq<Level>, ls: seq<Level>): seq<Level> { Fold(BidStep, s, ls) }
  function AskFold(s: seq<Level>, ls: seq<Level>): seq<Level> { Fold(AskStep, s, ls) }
  function FrontFold(ls: seq<Level>): seq<Level> { Fold(FrontStep, [], ls) }

  lemma AppendMeans(s: seq<Level>, m: map<real, real>, x: Level)
    requires Ascending(s) && Shows(s, m)
    requires forall p :: p in m ==> p < x.prx
    ensures Ascending(s + [x]) && Shows(s + [x], m[x.prx := x.qt])
  {
    var t := s + [x];
    forall p | p in m[x.prx := x.qt]
      ensures HasPrice(t, p)
    {
      if p == x.prx {
        assert t[|s|].prx == p;
      } else {
        var i :| 0 <= i < |s| && s[i].prx == p;
        assert t[i].prx == p;
      }
    }
  }

  /** The prices of a sorted book's map are at most its last one. */
  lemma LastHighest(s: seq<Level>, m: map<real, real>)
    requires s != [] && Ascending(s) && Shows(s, m)
    ensures s[|s| - 1].prx in m && m[s[|s| - 1].prx] == s[|s| - 1].qt
    ensures forall p :: p in m ==> p <= s[|s| - 1].prx
  {
  }

  /** A new highest level. */
  lemma BidAbove(s: seq<Level>, m: map<real, real>, b: Level)
    requires Ascending(s) && Shows(s, m) && forall p :: p in m ==> p < b.prx
    ensures b.qt != 0.0 ==> Ascending(s + [b]) && Shows(s + [b], Delta(m, b))
    ensures b.qt == 0.0 ==> Delta(m, b) == m
  {
    AppendMeans(s, m, b);
  }

  /** On a sorted book one bid step does to the quantities what the delta means, and keeps the
      book sorted. */
  lemma {:induction false} BidStepMeans(s: seq<Level>, m: map<real, real>, b: Level)
    requires Ascending(s) && Shows(s, m)
    ensures Ascending(BidStep(s, b)) && Shows(BidStep(s, b), Delta(m, b))
  {
    EmptyShown(s, m);
    if s == [] {
      BidAbove(s, m, b);
      assert s + [b] == [b];
    } else {
      var n, x := |s| - 1, s[|s| - 1];
      LastHighest(s, m);
      if x.prx < b.prx {
        BidAbove(s, m, b);
      } else {
        DropLast(s, m);
        var low := m - {x.prx};
        assert m == low[x.prx := x.qt];
        BidAtOrBelow(s[..n], low, x, b);
        if x.prx > b.prx {
          BidStepMeans(s[..n], low, b);
          AppendMeans(BidStep(s[..n], b), Delta(low, b), x);
        }
      }
    }
  }

  lemma BidAtOrBelow(s: seq<Level>, low: map<real, real>, x: Level, b: Level)
    requires Ascending(s) && Shows(s, low) && x.prx >= b.prx
    requires forall p :: p in low ==> p < x.prx
    ensures x.prx > b.prx ==> Delta(low, b)[x.prx := x.qt] == Delta(low[x.prx := x.qt], b)
    ensures x.prx == b.prx && b.qt == 0.0 ==> Delta(low[x.prx := x.qt], b) == low
    ensures x.prx == b.prx && b.qt != 0.0 ==>
      var t := s + [Level(b.prx, x.qt + b.qt)];
      Ascending(t) && Shows(t, Delta(low[x.prx := x.qt], b))
  {
    if x.prx == b.prx && b.qt != 0.0 {
      AppendMeans(s, low, Level(b.prx, x.qt + b.qt));
      assert low[b.prx := x.qt + b.qt] == Delta(low[x.prx := x.qt], b);
    }
  }

  lemma EraseSorted(s: seq<Level>, k: nat)
    requires Descending(s) && k < |s|
    ensures Descending(EraseAt(s, k))
  {
  }

  lemma InsertSorted(s: seq<Level>, k: nat, l: Level)
    requires Descending(s) && k <= |s|
    requires forall i :: 0 <= i < k ==> s[i].prx > l.prx
    requires forall i :: k <= i < |s| ==> s[i].prx < l.prx
    ensures Descending(InsertAt(s, k, l))
  {
  }

  lemma DescendingDistinct(s: seq<Level>)
    requires Descending(s)
    ensures Distinct(s)
  {
  }

  lemma AscendingDistinct(s: seq<Level>)
    requires Ascending(s)
    ensures Distinct(s)
  {
  }

  /** The same for one ask step. */
  lemma AskStepMeans(s: seq<Level>, m: map<real, real>, a: Level)
    requires Descending(s) && Shows(s, m)
    ensures Descending(AskStep(s, a)) && Shows(AskStep(s, a), Delta(m, a))
  {
    DescendingDistinct(s);
    var i := FindPrice(s, a.prx);
    if i < |s| {
      if a.qt == 0.0 {
        EraseMeans(s, m, i, a);
        EraseSorted(s, i);
      } else {
        AddMeans(s, m, i, a);
      }
    } else if a.qt == 0.0 {
      AbsentMeans(s, m, a);
    } else {
      var k := FindBelow(s, a.prx);
      InsertMeans(s, m, k, a);
      InsertSorted(s, k, a);
    }
  }

  // ---- A whole delta ----

  lemma {:induction false} BidFoldShows(s: seq<Level>, m: map<real, real>, ls: seq<Level>)
    requires Ascending(s) && Shows(s, m)
    ensures Ascending(BidFold(s, ls)) && Shows(BidFold(s, ls), Deltas(m, ls))
  {
    if ls != [] {
      var n := |ls| - 1;
      BidFoldShows(s, m, ls[..n]);
      BidStepMeans(BidFold(s, ls[..n]), Deltas(m, ls[..n]), ls[n]);
    }
  }

  lemma {:induction false} AskFoldShows(s: seq<Level>, m: map<real, real>, ls: seq<Level>)
    requires Descending(s) && Shows(s, m)
    ensures Descending(AskFold(s, ls)) && Shows(AskFold(s, ls), Deltas(m, ls))
  {
    if ls != [] {
      var n := |ls| - 1;
      AskFoldShows(s, m, ls[..n]);
      AskStepMeans(AskFold(s, ls[..n]), Deltas(m, ls[..n]), ls[n]);
    }
  }

  /** apply_bids' general path, for levels in any order: the book stays strictly ascending and
      its quantities are the old ones with each level applied in turn. */
  lemma BidFoldMeans(s: seq<Level>, ls: seq<Level>)
    requires Ascending(s)
    ensures Ascending(BidFold(s, ls))
    ensures Quantities(BidFold(s, ls)) == Deltas(Quantities(s), ls)
  {
    AscendingDistinct(s);
    QuantitiesShow(s);
    BidFoldShows(s, Quantities(s), ls);
    AscendingDistinct(BidFold(s, ls));
    QuantitiesAre(BidFold(s, ls), Deltas(Quantities(s), ls));
  }

  lemma AskFoldMeans(s: seq<Level>, ls: seq<Level>)
    requires Descending(s)
    ensures Descending(AskFold(s, ls))
    ensures Quantities(AskFold(s, ls)) == Deltas(Quantities(s), ls)
  {
    DescendingDistinct(s);
    QuantitiesShow(s);
    AskFoldShows(s, Quantities(s), ls);
    DescendingDistinct(AskFold(s, ls));
    QuantitiesAre(AskFold(s, ls), Deltas(Quantities(s), ls));
  }

  /** The two delta algorithms agree: on a sorted book, reversing and then applying the levels
      as asks is applying them as bids and then reversing. */
  lemma AlgorithmsAgree(s: seq<Level>, ls: seq<Level>)
    requires Ascending(s)
    ensures AskFold(Reverse(s), ls) == Reverse(BidFold(s, ls))
  {
    AscendingDistinct(s);
    ReverseDescends(s);
    ReverseQuantities(s);
    BidFoldMeans(s, ls);
    AskFoldMeans(Reverse(s), ls);
    var x, y := AskFold(Reverse(s), ls), BidFold(s, ls);
    ReverseAscends(x);
    DescendingDistinct(x);
    ReverseQuantities(x);
    AscendingUnique(Reverse(x), y);
    ReverseTwice(x);
  }

  // ---- The empty-book fast path ----

  function Nonzero(ls: seq<Level>): seq<Level> {
    if ls == [] then []
    else
      var rest, l := Nonzero(ls[..|ls| - 1]), ls[|ls| - 1];
      if l.qt != 0.0 then rest + [l] else rest
  }

  lemma {:induction false} FrontFoldReverses(ls: seq<Level>)
    ensures FrontFold(ls) == Reverse(Nonzero(ls))
  {
    if ls != [] {
      FrontFoldReverses(ls[..|ls| - 1]);
    }
  }

  /** A nonzero bid comes after higher prices only, and a zero one after other prices only. */
  ghost predicate OrderlyBids(ls: seq<Level>) {
    forall i, j :: 0 <= i < j < |ls| && ls[i].qt != 0.0 ==>
      if ls[j].qt != 0.0 then ls[i].prx > ls[j].prx else ls[i].prx != ls[j].prx
  }

  ghost predicate OrderlyAsks(ls: seq<Level>) {
    forall i, j :: 0 <= i < j < |ls| && ls[i].qt != 0.0 ==>
      if ls[j].qt != 0.0 then ls[i].prx < ls[j].prx else ls[i].prx != ls[j].prx
  }

  /** The levels of Nonzero are the nonzero levels, in order. */
  lemma {:induction false} NonzeroFrom(ls: seq<Level>, k: nat) returns (i: nat)
    requires k < |Nonzero(ls)|
    ensures i < |ls| && ls[i] == Nonzero(ls)[k] && ls[i].qt != 0.0
    ensures Nonzero(ls[..i]) == Nonzero(ls)[..k]
  {
    var n := |ls| - 1;
    if ls[n].qt != 0.0 && k == |Nonzero(ls[..n])| {
      i := n;
      assert Nonzero(ls)[..k] == Nonzero(ls[..n]);
    } else {
      i := NonzeroFrom(ls[..n], k);
      assert ls[..n][..i] == ls[..i];
      assert Nonzero(ls)[..k] == Nonzero(ls[..n])[..k];
    }
  }

  lemma {:induction false} NonzeroAt(ls: seq<Level>, i: nat) returns (k: nat)
    requires i < |ls| && ls[i].qt != 0.0
    ensures k < |Nonzero(ls)| && Nonzero(ls)[k] == ls[i] && k == |Nonzero(ls[..i])|
  {
    var n := |ls| - 1;
    if i == n {
      k := |Nonzero(ls[..n])|;
    } else {
      k := NonzeroAt(ls[..n], i);
      assert ls[..n][..i] == ls[..i];
    }
  }

  lemma {:induction false} NonzeroGrows(ls: seq<Level>, i: nat, j: nat)
    requires i < j <= |ls| && ls[i].qt != 0.0
    ensures |Nonzero(ls[..i])| < |Nonzero(ls[..j])|
    decreases j
  {
    assert ls[..j][..j - 1] == ls[..j - 1];
    if i < j - 1 {
      NonzeroGrows(ls, i, j - 1);
    }
  }

  lemma PricesFar(ls: seq<Level>, l: Level, s: seq<Level>)
    requires s == Nonzero(ls)
    requires forall i :: 0 <= i < |ls| && ls[i].qt != 0.0 ==> ls[i].prx != l.prx
    ensures !HasPrice(s, l.prx)
  {
    forall k | 0 <= k < |s|
      ensures s[k].prx != l.prx
    {
      var i := NonzeroFrom(ls, k);
    }
  }

  lemma {:induction false} ZeroAbsent(s: seq<Level>, b: Level)
    requires !HasPrice(s, b.prx) && b.qt == 0.0
    ensures BidStep(s, b) == s
  {
    if s != [] {
      var n := |s| - 1;
      forall i | 0 <= i < n
        ensures s[..n][i].prx != b.prx
      {
        assert s[i].prx != b.prx;
      }
      assert s[n].prx != b.prx;
      ZeroAbsent(s[..n], b);
      assert s[..n] + [s[n]] == s;
    }
  }

  lemma {:induction false} LowestGoesFirst(s: seq<Level>, b: Level)
    requires forall i :: 0 <= i < |s| ==> s[i].prx > b.prx
    requires b.qt != 0.0
    ensures BidStep(s, b) == [b] + s
  {
    if s != [] {
      var n := |s| - 1;
      LowestGoesFirst(s[..n], b);
      assert [b] + s[..n] + [s[n]] == [b] + s;
    }
  }

  /** On levels in bid order the general path, from an empty book, is the fast path. */
  lemma {:induction false} OrderlyBidsFold(ls: seq<Level>)
    requires OrderlyBids(ls)
    ensures BidFold([], ls) == FrontFold(ls)
  {
    if ls != [] {
      var n, l := |ls| - 1, ls[|ls| - 1];
      var s := FrontFold(ls[..n]);
      OrderlyBidsFold(ls[..n]);
      FrontFoldReverses(ls[..n]);
      assert forall i :: 0 <= i < n ==> ls[..n][i] == ls[i];
      if l.qt == 0.0 {
        PricesFar(ls[..n], l, Nonzero(ls[..n]));
        forall k | 0 <= k < |s|
          ensures s[k].prx != l.prx
        {
          assert Nonzero(ls[..n])[|s| - 1 - k].prx != l.prx;
        }
        ZeroAbsent(s, l);
      } else {
        forall k | 0 <= k < |s|
          ensures s[k].prx > l.prx
        {
          var i := NonzeroFrom(ls[..n], |s| - 1 - k);
        }
        LowestGoesFirst(s, l);
      }
    }
  }

  /** On levels in ask order the bid algorithm, from an empty book, keeps the nonzero levels in
      the order they came. */
  lemma {:induction false} OrderlyAsksFold(ls: seq<Level>)
    requires OrderlyAsks(ls)
    ensures BidFold([], ls) == Nonzero(ls)
  {
    if ls != [] {
      var n, l := |ls| - 1, ls[|ls| - 1];
      var s := Nonzero(ls[..n]);
      OrderlyAsksFold(ls[..n]);
      assert forall i :: 0 <= i < n ==> ls[..n][i] == ls[i];
      if l.qt == 0.0 {
        PricesFar(ls[..n], l, s);
        ZeroAbsent(s, l);
      } else if s != [] {
        var i := NonzeroFrom(ls[..n], |s| - 1);
      }
    }
  }

  /** A price that was deleted and not created again is not there. */
  lemma {:induction false} DeletedStays(m: map<real, real>, ls: seq<Level>, j: nat)
    requires j < |ls| && ls[j].qt == 0.0
    requires forall i :: j < i < |ls| && ls[i].qt != 0.0 ==> ls[i].prx != ls[j].prx
    ensures ls[j].prx !in Deltas(m, ls)
  {
    var n := |ls| - 1;
    if j < n {
      assert forall i :: 0 <= i < n ==> ls[..n][i] == ls[i];
      DeletedStays(m, ls[..n], j);
    }
  }

  /** If the general path keeps every nonzero level, no zero level follows one of its price. */
  lemma NoLaterZero(ls: seq<Level>, i: nat, j: nat)
    requires i < j < |ls| && ls[i].qt != 0.0 && ls[j].qt == 0.0
    requires Distinct(Nonzero(ls))
    requires Shows(Nonzero(ls), Deltas(map[], ls))
    ensures ls[i].prx != ls[j].prx
  {
    if ls[i].prx == ls[j].prx {
      var k := NonzeroAt(ls, i);
      forall x | j < x < |ls| && ls[x].qt != 0.0
        ensures ls[x].prx != ls[j].prx
      {
        var y := NonzeroAt(ls, x);
        NonzeroGrows(ls, i, x);
      }
      DeletedStays(map[], ls, j);
    }
  }

  lemma OrderOfNonzero(ls: seq<Level>, i: nat, j: nat) returns (k: nat, l: nat)
    requires i < j < |ls| && ls[i].qt != 0.0 && ls[j].qt != 0.0
    ensures k < l < |Nonzero(ls)| && Nonzero(ls)[k] == ls[i] && Nonzero(ls)[l] == ls[j]
  {
    k := NonzeroAt(ls, i);
    l := NonzeroAt(ls, j);
    NonzeroGrows(ls, i, j);
  }

  lemma BidFastPathOrdered(ls: seq<Level>)
    requires FrontFold(ls) == BidFold([], ls)
    ensures Descending(Nonzero(ls)) && Shows(Nonzero(ls), Deltas(map[], ls))
  {
    var s := Nonzero(ls);
    FrontFoldReverses(ls);
    BidFoldShows([], map[], ls);
    ReverseOfAscending(s);
    ReverseShows(Reverse(s), Deltas(map[], ls));
    ReverseTwice(s);
  }

  /** Exactly when the bids' fast path is the general path. */
  lemma BidFastPath(ls: seq<Level>)
    ensures FrontFold(ls) == BidFold([], ls) <==> OrderlyBids(ls)
  {
    if OrderlyBids(ls) {
      OrderlyBidsFold(ls);
    } else if FrontFold(ls) == BidFold([], ls) {
      BidFastPathOrdered(ls);
      DescendingDistinct(Nonzero(ls));
      forall i, j | 0 <= i < j < |ls| && ls[i].qt != 0.0
        ensures if ls[j].qt != 0.0 then ls[i].prx > ls[j].prx else ls[i].prx != ls[j].prx
      {
        if ls[j].qt != 0.0 {
          var k, l := OrderOfNonzero(ls, i, j);
        } else {
          NoLaterZero(ls, i, j);
        }
      }
    }
  }

  /** Exactly when the asks' fast path is the general path. */
  lemma AskFastPath(ls: seq<Level>)
    ensures FrontFold(ls) == AskFold([], ls) <==> OrderlyAsks(ls)
  {
    var s, g := Nonzero(ls), BidFold([], ls);
    FrontFoldReverses(ls);
    AlgorithmsAgree([], ls);
    assert Reverse([]) == [];
    ReverseTwice(s);
    ReverseTwice(g);
    if OrderlyAsks(ls) {
      OrderlyAsksFold(ls);
    } else if FrontFold(ls) == AskFold([], ls) {
      assert s == g;
      BidFoldShows([], map[], ls);
      AscendingDistinct(s);
      forall i, j | 0 <= i < j < |ls| && ls[i].qt != 0.0
        ensures if ls[j].qt != 0.0 then ls[i].prx < ls[j].prx else ls[i].prx != ls[j].prx
      {
        if ls[j].qt != 0.0 {
          var k, l := OrderOfNonzero(ls, i, j);
        } else {
          NoLaterZero(ls, i, j);
        }
      }
    }
  }

  // ---- Messages and runs ----

  datatype Book = Book(bids: seq<Level>, asks: seq<Level>)
  datatype Message = Message(bids: seq<Level>, asks: seq<Level>, full: bool)

  function BidsAfter(s: seq<Level>, ls: seq<Level>): seq<Level> {
    if s == [] then FrontFold(ls) else BidFold(s, ls)
  }

  function AsksAfter(s: seq<Level>, ls: seq<Level>): seq<Level> {
    if s == [] then FrontFold(ls) else AskFold(s, ls)
  }

  function Apply(b: Book, m: Message): Book {
    if m.full then Book(Reverse(m.bids), Reverse(m.asks))
    else Book(BidsAfter(b.bids, m.bids), AsksAfter(b.asks, m.asks))
  }

  ghost predicate Sorted(b: Book) { Ascending(b.bids) && Descending(b.asks) }

  /** What a message means for the quantities of one side. */
  ghost function Meaning(q: map<real, real>, ls: seq<Level>, full: bool): map<real, real> {
    if full then Quantities(ls) else Deltas(q, ls)
  }

  /** A snapshot is strictly ordered; a delta has to be in order only on an empty side. */
  ghost predicate BidsFit(s: seq<Level>, ls: seq<Level>, full: bool) {
    if full then Descending(ls) else s == [] ==> OrderlyBids(ls)
  }

  ghost predicate AsksFit(s: seq<Level>, ls: seq<Level>, full: bool) {
    if full then Ascending(ls) else s == [] ==> OrderlyAsks(ls)
  }

  ghost predicate Fits(b: Book, m: Message) {
    BidsFit(b.bids, m.bids, m.full) && AsksFit(b.asks, m.asks, m.full)
  }

  lemma FrontFoldUnique(ls: seq<Level>)
    requires Ascending(FrontFold(ls)) && Quantities(FrontFold(ls)) == Deltas(map[], ls)
    ensures FrontFold(ls) == BidFold([], ls)
  {
    BidFoldMeans([], ls);
    AscendingUnique(FrontFold(ls), BidFold([], ls));
  }

  lemma DescendingUnique(s: seq<Level>, t: seq<Level>)
    requires Descending(s) && Descending(t) && Quantities(s) == Quantities(t)
    ensures s == t
  {
    DescendingDistinct(s);
    DescendingDistinct(t);
    ReverseQuantities(s);
    ReverseQuantities(t);
    ReverseAscends(s);
    ReverseAscends(t);
    AscendingUnique(Reverse(s), Reverse(t));
    ReverseTwice(s);
    ReverseTwice(t);
  }

  /** Exactly when a message leaves the bids sorted with the quantities it means. */
  lemma BidsMean(b: Book, m: Message)
    requires Sorted(b)
    ensures var s := Apply(b, m).bids;
      Ascending(s) && Quantities(s) == Meaning(Quantities(b.bids), m.bids, m.full)
      <==> BidsFit(b.bids, m.bids, m.full)
  {
    if m.full {
      if Ascending(Reverse(m.bids)) {
        ReverseOfAscending(m.bids);
      }
      if Descending(m.bids) {
        ReverseAscends(m.bids);
        DescendingDistinct(m.bids);
        ReverseQuantities(m.bids);
      }
    } else if b.bids == [] {
      BidFastPath(m.bids);
      BidFoldMeans([], m.bids);
      if Ascending(FrontFold(m.bids)) && Quantities(FrontFold(m.bids)) == Deltas(map[], m.bids) {
        FrontFoldUnique(m.bids);
      }
    } else {
      BidFoldMeans(b.bids, m.bids);
    }
  }

  lemma AsksMean(b: Book, m: Message)
    requires Sorted(b)
    ensures var s := Apply(b, m).asks;
      Descending(s) && Quantities(s) == Meaning(Quantities(b.asks), m.asks, m.full)
      <==> AsksFit(b.asks, m.asks, m.full)
  {
    if m.full {
      if Descending(Reverse(m.asks)) {
        ReverseOfDescending(m.asks);
      }
      if Ascending(m.asks) {
        ReverseDescends(m.asks);
        AscendingDistinct(m.asks);
        ReverseQuantities(m.asks);
      }
    } else if b.asks == [] {
      AskFastPath(m.asks);
      AskFoldMeans([], m.asks);
      var s := FrontFold(m.asks);
      if Descending(s) && Quantities(s) == Deltas(map[], m.asks) {
        DescendingUnique(s, AskFold([], m.asks));
      }
    } else {
      AskFoldMeans(b.asks, m.asks);
    }
  }

  ghost function Run(b: Book, ms: seq<Message>): Book {
    if ms == [] then b else Apply(Run(b, ms[..|ms| - 1]), ms[|ms| - 1])
  }

  ghost predicate RunFits(b: Book, ms: seq<Message>) {
    forall i :: 0 <= i < |ms| ==> Fits(Run(b, ms[..i]), ms[i])
  }

  /** The price-to-quantity maps after a run of messages, with no book in sight. */
  ghost function BidMap(q: map<real, real>, ms: seq<Message>): map<real, real> {
    if ms == [] then q
    else Meaning(BidMap(q, ms[..|ms| - 1]), ms[|ms| - 1].bids, ms[|ms| - 1].full)
  }

  ghost function AskMap(q: map<real, real>, ms: seq<Message>): map<real, real> {
    if ms == [] then q
    else Meaning(AskMap(q, ms[..|ms| - 1]), ms[|ms| - 1].asks, ms[|ms| - 1].full)
  }

  /** Over every run of fitting snapshots and deltas the book is sorted, has no price twice, and
      holds exactly the quantities the messages mean. */
  lemma {:induction false} RunMeans(b: Book, ms: seq<Message>)
    requires Sorted(b) && RunFits(b, ms)
    ensures Sorted(Run(b, ms)) && Distinct(Run(b, ms).bids) && Distinct(Run(b, ms).asks)
    ensures Quantities(Run(b, ms).bids) == BidMap(Quantities(b.bids), ms)
    ensures Quantities(Run(b, ms).asks) == AskMap(Quantities(b.asks), ms)
  {
    if ms != [] {
      var n := |ms| - 1;
      forall i | 0 <= i < n
        ensures Fits(Run(b, ms[..n][..i]), ms[..n][i])
      {
        assert ms[..n][..i] == ms[..i];
        assert Fits(Run(b, ms[..i]), ms[i]);
      }
      RunMeans(b, ms[..n]);
      assert Fits(Run(b, ms[..n]), ms[n]);
      BidsMean(Run(b, ms[..n]), ms[n]);
      AsksMean(Run(b, ms[..n]), ms[n]);
    }
    AscendingDistinct(Run(b, ms).bids);
    DescendingDistinct(Run(b, ms).asks);
  }

  /** Messages in the order the comments of the source promise always fit. */
  lemma StrictOrderFits(b: Book, m: Message)
    requires Descending(m.bids) && Ascending(m.asks)
    ensures Fits(b, m)
  {
  }
}
