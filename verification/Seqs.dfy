/** Notions about sequences that several components share. */
module Seqs {
  import opened Text

  /** The last `n` elements, or all of them. */
  function Last<T>(s: seq<T>, n: nat): (r: seq<T>)
    ensures |r| == if |s| <= n then |s| else n
  {
    if |s| <= n then s else s[|s| - n..]
  }

  ghost predicate Distinct<T>(s: seq<T>)
  {
    forall i, j :: 0 <= i < j < |s| ==> s[i] != s[j]
  }

  /** The state after a run of steps, if every one of them was possible. */
  function Iterate<S, T>(step: (S, T) -> Option<S>, s: S, run: seq<T>): Option<S>
  {
    if run == [] then Some(s)
    else
      var before :- Iterate(step, s, run[..|run| - 1]);
      step(before, run[|run| - 1])
  }

  lemma IteratePush<S, T>(step: (S, T) -> Option<S>, s: S, run: seq<T>, t: T)
    requires Iterate(step, s, run).Some?
    ensures Iterate(step, s, run + [t]) == step(Iterate(step, s, run).value, t)
  {
    assert (run + [t])[..|run|] == run;
  }
}
