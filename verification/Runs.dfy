/** Playing a list of events from a state, one step after another. */
module Runs {
  import opened LoopModel

  /** The state that the events lead to; None if one of them may not happen. */
  ghost function Play<S, E>(step: (S, E) -> Option<S>, s: S, events: seq<E>): Option<S>
    decreases |events|
  {
    if events == [] then Some(s)
    else
      match step(s, events[0])
      case None => None
      case Some(t) => Play(step, t, events[1..])
  }

  lemma {:induction false} PlayTwo<S, E>(step: (S, E) -> Option<S>, s: S, first: seq<E>, rest: seq<E>)
    requires Play(step, s, first).Some?
    ensures Play(step, s, first + rest) == Play(step, Play(step, s, first).value, rest)
    decreases |first|
  {
    if first == [] {
      assert first + rest == rest;
    } else {
      PlayTwo(step, step(s, first[0]).value, first[1..], rest);
      assert (first + rest)[0] == first[0] && (first + rest)[1..] == first[1..] + rest;
    }
  }

  lemma PlayOne<S, E>(step: (S, E) -> Option<S>, s: S, e: E)
    ensures Play(step, s, [e]) == step(s, e)
  {
    assert [e][1..] == [];
    if step(s, e).Some? {
      assert Play(step, step(s, e).value, []) == step(s, e);
    }
  }

  /** One more event at the end. */
  lemma PlayThen<S, E>(step: (S, E) -> Option<S>, s: S, first: seq<E>, t: S, e: E)
    requires Play(step, s, first) == Some(t)
    ensures Play(step, s, first + [e]) == step(t, e)
  {
    PlayTwo(step, s, first, [e]);
    PlayOne(step, t, e);
  }

  /** What is played passes through a trace of states. */
  lemma {:induction false} PlayTrace<S, E>(step: (S, E) -> Option<S>, s: S, events: seq<E>) returns (trace: seq<S>)
    requires Play(step, s, events).Some?
    ensures |trace| == |events| + 1 && trace[0] == s && trace[|events|] == Play(step, s, events).value
    ensures forall i :: 0 <= i < |events| ==> step(trace[i], events[i]) == Some(trace[i + 1])
    decreases |events|
  {
    if events == [] {
      trace := [s];
    } else {
      var rest := PlayTrace(step, step(s, events[0]).value, events[1..]);
      trace := [s] + rest;
      forall i | 0 <= i < |events|
        ensures step(trace[i], events[i]) == Some(trace[i + 1])
      {
        if i > 0 {
          assert step(rest[i - 1], events[1..][i - 1]) == Some(rest[i]);
        }
      }
    }
  }

  /** A trace whose steps all happen passes through what playing its events leads to. */
  lemma {:induction false} TracePlays<S, E>(step: (S, E) -> Option<S>, trace: seq<S>, events: seq<E>, m: nat, n: nat)
    requires m <= n <= |events| && |trace| == |events| + 1
    requires forall i :: 0 <= i < |events| ==> step(trace[i], events[i]) == Some(trace[i + 1])
    ensures Play(step, trace[m], events[m..n]) == Some(trace[n])
    decreases n
  {
    if m == n {
      assert events[m..n] == [];
    } else {
      TracePlays(step, trace, events, m, n - 1);
      PlayThen(step, trace[m], events[m..n - 1], trace[n - 1], events[n - 1]);
      assert events[m..n] == events[m..n - 1] + [events[n - 1]];
      assert step(trace[n - 1], events[n - 1]) == Some(trace[n - 1 + 1]);
    }
  }
}
