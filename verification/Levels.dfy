/** Sides of the order book of samples/order_book_ws.cpp as sequences of levels, and the map from
    price to quantity that a side shows. */
module Levels {

  datatype Level = Level(prx: real, qt: real)

  ghost predicate Ascending(s: seq<Level>) {
    forall i, j :: 0 <= i < j < |s| ==> s[i].prx < s[j].prx
  }

  ghost predicate Descending(s: seq<Level>) {
    forall i, j :: 0 <= i < j < |s| ==> s[i].prx > s[j].prx
  }

  ghost predicate Distinct(s: seq<Level>) {
    forall i, j :: 0 <= i < |s| && 0 <= j < |s| && s[i].prx == s[j].prx ==> i == j
  }

  ghost predicate HasPrice(s: seq<Level>, p: real) {
    exists i :: 0 <= i < |s| && s[i].prx == p
  }

  /** `m` gives the quantity at each price of the book and at no other. */
  ghost predicate Shows(s: seq<Level>, m: map<real, real>) {
    && (forall i :: 0 <= i < |s| ==> s[i].prx in m && m[s[i].prx] == s[i].qt)
    && (forall p :: p in m ==> HasPrice(s, p))
  }

  /** The quantity at each price. */
  ghost function Quantities(s: seq<Level>): map<real, real> {
    if s == [] then map[] else Quantities(s[..|s| - 1])[s[|s| - 1].prx := s[|s| - 1].qt]
  }

  function Reverse(s: seq<Level>): (r: seq<Level>)
    ensures |r| == |s|
    ensures forall i :: 0 <= i < |s| ==> r[i] == s[|s| - 1 - i]
  {
    seq(|s|, i requires 0 <= i < |s| => s[|s| - 1 - i])
  }

  /** What one delta level means: it adds to the quantity at its price, creates the price when
      it is new, and deletes it when the delta is zero. */
  ghost function Delta(m: map<real, real>, l: Level): map<real, real> {
    if l.qt == 0.0 then m - {l.prx}
    else if l.prx in m then m[l.prx := m[l.prx] + l.qt]
    else m[l.prx := l.qt]
  }

  ghost function Deltas(m: map<real, real>, ls: seq<Level>): map<real, real> {
    if ls == [] then m else Delta(Deltas(m, ls[..|ls| - 1]), ls[|ls| - 1])
  }

  // ---- Sorted books and their maps ----

  lemma {:induction false} QuantitiesShow(s: seq<Level>)
    requires Distinct(s)
    ensures Shows(s, Quantities(s))
  {
    if s != [] {
      var n := |s| - 1;
      QuantitiesShow(s[..n]);
      var m := Quantities(s[..n]);
      forall i | 0 <= i < n
        ensures s[i].prx in m && m[s[i].prx] == s[i].qt && s[i].prx != s[n].prx
      {
        assert s[..n][i] == s[i];
      }
      forall p | p in Quantities(s)
        ensures HasPrice(s, p)
      {
        if p == s[n].prx {
          assert s[n].prx == p;
        } else {
          var i :| 0 <= i < n && s[..n][i].prx == p;
          assert s[i].prx == p;
        }
      }
    }
  }

  lemma ShownOnce(s: seq<Level>, m: map<real, real>, m': map<real, real>)
    requires Shows(s, m) && Shows(s, m')
    ensures m == m'
  {
    forall p | p in m
      ensures p in m' && m'[p] == m[p]
    {
      var i :| 0 <= i < |s| && s[i].prx == p;
    }
    forall p | p in m'
      ensures p in m
    {
      var i :| 0 <= i < |s| && s[i].prx == p;
    }
  }

  lemma QuantitiesAre(s: seq<Level>, m: map<real, real>)
    requires Distinct(s) && Shows(s, m)
    ensures Quantities(s) == m
  {
    QuantitiesShow(s);
    ShownOnce(s, m, Quantities(s));
  }

  /** A sorted book is determined by its map. */
  lemma {:induction false} ShownUnique(s: seq<Level>, t: seq<Level>, m: map<real, real>)
    requires Ascending(s) && Ascending(t) && Shows(s, m) && Shows(t, m)
    ensures s == t
    decreases |s|
  {
    EmptyShown(s, m);
    EmptyShown(t, m);
    if s != [] {
      var x, y := s[|s| - 1], t[|t| - 1];
      assert HasPrice(t, x.prx) && HasPrice(s, y.prx);
      assert x == y;
      DropLast(s, m);
      DropLast(t, m);
      ShownUnique(s[..|s| - 1], t[..|t| - 1], m - {x.prx});
      assert s == s[..|s| - 1] + [x] && t == t[..|t| - 1] + [x];
    }
  }

  lemma EmptyShown(s: seq<Level>, m: map<real, real>)
    requires Shows(s, m)
    ensures s == [] <==> m == map[]
  {
    if s != [] {
      assert s[0].prx in m;
    } else {
      assert forall p :: p in m ==> HasPrice(s, p);
      assert forall p :: p !in m;
    }
  }

  lemma DropLast(s: seq<Level>, m: map<real, real>)
    requires s != [] && Ascending(s) && Shows(s, m)
    ensures Ascending(s[..|s| - 1]) && Shows(s[..|s| - 1], m - {s[|s| - 1].prx})
  {
  }

  /** Two ascending books with the same quantities are the same sequence. */
  lemma AscendingUnique(s: seq<Level>, t: seq<Level>)
    requires Ascending(s) && Ascending(t) && Quantities(s) == Quantities(t)
    ensures s == t
  {
    QuantitiesShow(s);
    QuantitiesShow(t);
    ShownUnique(s, t, Quantities(s));
  }

  lemma ReverseTwice(s: seq<Level>)
    ensures Reverse(Reverse(s)) == s
  {
  }

  lemma ReverseDescends(s: seq<Level>)
    requires Ascending(s)
    ensures Descending(Reverse(s))
  {
  }

  lemma ReverseAscends(s: seq<Level>)
    requires Descending(s)
    ensures Ascending(Reverse(s))
  {
  }

  lemma ReverseOfAscending(s: seq<Level>)
    requires Ascending(Reverse(s))
    ensures Descending(s)
  {
    var r := Reverse(s);
    ReverseTwice(s);
    ReverseDescends(r);
  }

  lemma ReverseOfDescending(s: seq<Level>)
    requires Descending(Reverse(s))
    ensures Ascending(s)
  {
    var r := Reverse(s);
    ReverseTwice(s);
    ReverseAscends(r);
  }

  lemma ReverseShows(s: seq<Level>, m: map<real, real>)
    requires Shows(s, m)
    ensures Shows(Reverse(s), m)
  {
    var r, n := Reverse(s), |s|;
    forall p | p in m
      ensures HasPrice(r, p)
    {
      var i :| 0 <= i < n && s[i].prx == p;
      assert r[n - 1 - i].prx == p;
    }
  }

  /** Reversing a book of distinct prices keeps its quantities. */
  lemma ReverseQuantities(s: seq<Level>)
    requires Distinct(s)
    ensures Distinct(Reverse(s)) && Quantities(Reverse(s)) == Quantities(s)
  {
    QuantitiesShow(s);
    ReverseShows(s, Quantities(s));
    var r, n := Reverse(s), |s|;
    forall i, j | 0 <= i < n && 0 <= j < n && r[i].prx == r[j].prx
      ensures i == j
    {
      assert s[n - 1 - i].prx == s[n - 1 - j].prx;
    }
    QuantitiesAre(r, Quantities(s));
  }

  // ---- What insertion, deletion and addition do to the map ----

  function InsertAt(s: seq<Level>, k: nat, l: Level): seq<Level>
    requires k <= |s|
  {
    s[..k] + [l] + s[k..]
  }

  function EraseAt(s: seq<Level>, k: nat): seq<Level>
    requires k < |s|
  {
    s[..k] + s[k + 1..]
  }

  function AddAt(s: seq<Level>, k: nat, l: Level): seq<Level>
    requires k < |s|
  {
    s[k := s[k].(qt := s[k].qt + l.qt)]
  }

  lemma InsertMeans(s: seq<Level>, m: map<real, real>, k: nat, l: Level)
    requires Shows(s, m) && k <= |s| && !HasPrice(s, l.prx) && l.qt != 0.0
    ensures Shows(InsertAt(s, k, l), Delta(m, l))
  {
    var t := InsertAt(s, k, l);
    forall i | 0 <= i < |t| && i != k
      ensures t[i].prx in m && m[t[i].prx] == t[i].qt && t[i].prx != l.prx
    {
      var j := if i < k then i else i - 1;
      assert t[i] == s[j];
    }
    forall p | p in Delta(m, l)
      ensures HasPrice(t, p)
    {
      if p == l.prx {
        assert t[k].prx == p;
      } else {
        var i :| 0 <= i < |s| && s[i].prx == p;
        assert t[if i < k then i else i + 1].prx == p;
      }
    }
  }

  lemma EraseMeans(s: seq<Level>, m: map<real, real>, k: nat, l: Level)
    requires Distinct(s) && Shows(s, m) && k < |s| && s[k].prx == l.prx && l.qt == 0.0
    ensures Shows(EraseAt(s, k), Delta(m, l))
  {
    var t := EraseAt(s, k);
    forall i | 0 <= i < |t|
      ensures t[i].prx in m && m[t[i].prx] == t[i].qt && t[i].prx != l.prx
    {
      var j := if i < k then i else i + 1;
      assert t[i] == s[j];
    }
    forall p | p in Delta(m, l)
      ensures HasPrice(t, p)
    {
      var i :| 0 <= i < |s| && s[i].prx == p;
      assert t[if i < k then i else i - 1].prx == p;
    }
  }

  lemma AddMeans(s: seq<Level>, m: map<real, real>, k: nat, l: Level)
    requires Distinct(s) && Shows(s, m) && k < |s| && s[k].prx == l.prx && l.qt != 0.0
    ensures Shows(AddAt(s, k, l), Delta(m, l))
  {
    var t := AddAt(s, k, l);
    forall p | p in Delta(m, l)
      ensures HasPrice(t, p)
    {
      var i :| 0 <= i < |s| && s[i].prx == p;
      assert t[i].prx == p;
    }
  }

  lemma AbsentMeans(s: seq<Level>, m: map<real, real>, l: Level)
    requires Shows(s, m) && !HasPrice(s, l.prx)
    ensures l.prx !in m
    ensures l.qt == 0.0 ==> Delta(m, l) == m
  {
  }
}
