/** Things that are each held in one slot of a table or kept, once, in a list of the rest. */
module Ownership {
  import opened LoopModel

  /** Every member of `all` is in one slot or once in `rest`, never both, and nothing else is. */
  ghost predicate Divided<T>(slots: seq<Option<T>>, rest: seq<T>, all: set<T>) {
    && (forall i, j :: 0 <= i < j < |rest| ==> rest[i] != rest[j])
    && (forall i :: 0 <= i < |rest| ==> rest[i] in all)
    && (forall i :: 0 <= i < |slots| && slots[i].Some? ==> slots[i].value in all && slots[i].value !in rest)
    && (forall i, j :: 0 <= i < j < |slots| && slots[i].Some? ==> slots[i] != slots[j])
    && (forall x :: x in all ==> x in rest || Some(x) in slots)
  }

  /** What a slot held goes to the rest. */
  lemma Released<T>(slots: seq<Option<T>>, rest: seq<T>, all: set<T>, i: nat)
    requires Divided(slots, rest, all) && i < |slots| && slots[i].Some?
    ensures Divided(slots[i := None], rest + [slots[i].value], all)
  {
    forall x | x in all
      ensures x in rest + [slots[i].value] || Some(x) in slots[i := None]
    {
      if x !in rest && slots[i] != Some(x) {
        var j :| 0 <= j < |slots| && slots[j] == Some(x);
        assert slots[i := None][j] == Some(x);
      }
    }
  }

  /** The last of the rest goes to an empty slot. */
  lemma Taken<T>(slots: seq<Option<T>>, rest: seq<T>, all: set<T>, i: nat)
    requires Divided(slots, rest, all) && i < |slots| && slots[i].None? && rest != []
    ensures Divided(slots[i := Some(rest[|rest| - 1])], rest[..|rest| - 1], all)
  {
    var n := |rest| - 1;
    var slots' := slots[i := Some(rest[n])];
    forall x | x in all
      ensures x in rest[..n] || Some(x) in slots'
    {
      if x in rest {
        var j :| 0 <= j < |rest| && rest[j] == x;
        if j < n {
          assert rest[..n][j] == x;
        } else {
          assert slots'[i] == Some(x);
        }
      } else {
        var j :| 0 <= j < |slots| && slots[j] == Some(x);
        assert slots'[j] == Some(x);
      }
    }
  }

  /** Something new goes to an empty slot. */
  lemma Held<T>(slots: seq<Option<T>>, rest: seq<T>, all: set<T>, i: nat, x: T)
    requires Divided(slots, rest, all) && i < |slots| && slots[i].None? && x !in all
    ensures Divided(slots[i := Some(x)], rest, all + {x})
  {
    forall y | y in all + {x}
      ensures y in rest || Some(y) in slots[i := Some(x)]
    {
      if y == x {
        assert slots[i := Some(x)][i] == Some(y);
      } else if y !in rest {
        var j :| 0 <= j < |slots| && slots[j] == Some(y);
        assert slots[i := Some(x)][j] == Some(y);
      }
    }
  }

  /** Empty slots are added. */
  lemma Longer<T>(slots: seq<Option<T>>, rest: seq<T>, all: set<T>, more: seq<Option<T>>)
    requires Divided(slots, rest, all) && forall i :: 0 <= i < |more| ==> more[i].None?
    ensures Divided(slots + more, rest, all)
  {
    forall x | x in all
      ensures x in rest || Some(x) in slots + more
    {
      if x !in rest {
        var j :| 0 <= j < |slots| && slots[j] == Some(x);
        assert (slots + more)[j] == Some(x);
      }
    }
  }

  /** With no slot in use everything is in the rest, once. */
  lemma AllReleased<T>(slots: seq<Option<T>>, rest: seq<T>, all: set<T>)
    requires Divided(slots, rest, all) && forall i :: 0 <= i < |slots| ==> slots[i].None?
    ensures forall x :: x in all <==> x in rest
    ensures forall i, j :: 0 <= i < j < |rest| ==> rest[i] != rest[j]
  {
    assert forall x :: Some(x) !in slots;
  }
}
