/** Failure-compatible datatypes shared by the whole model. */
module Prelude {
  datatype Option<+T> = None | Some(value: T)

  datatype Result<+T, +E> = Ok(value: T) | Err(error: E) {
    predicate IsFailure() {
      Err?
    }

    function PropagateFailure<U>(): Result<U, E>
      requires Err?
    {
      Err(error)
    }

    function Extract(): T
      requires Ok?
    {
      value
    }
  }

  /** A value stands at two positions of a sequence exactly when its multiplicity is at least two. */
  lemma {:induction false} Occurrences<T>(xs: seq<T>, x: T)
    ensures multiset(xs)[x] >= 2 <==> exists i, j :: 0 <= i < j < |xs| && xs[i] == x == xs[j]
  {
    if xs != [] {
      var rest := xs[1..];
      assert xs == [xs[0]] + rest;
      Occurrences(rest, x);
      if i, j :| 0 <= i < j < |rest| && rest[i] == x == rest[j] {
        assert xs[i + 1] == x == xs[j + 1];
      }
      if xs[0] == x && x in rest {
        var j :| 0 <= j < |rest| && rest[j] == x;
        assert xs[0] == x == xs[j + 1];
      }
      if i, j :| 0 <= i < j < |xs| && xs[i] == x == xs[j] {
        assert rest[j - 1] == x;
        assert i > 0 ==> rest[i - 1] == x;
        assert x in multiset(rest);
      }
    }
  }

  /** What every step keeps, holds in every state of a run. */
  lemma {:induction false} KeptThroughout<S, T>(
      inv: S -> bool, next: (S, T, S) -> bool, states: seq<S>, steps: seq<T>, i: nat)
    requires |states| == |steps| + 1 && i < |states| && inv(states[0])
    requires forall k {:trigger steps[k]} | 0 <= k < |steps| :: next(states[k], steps[k], states[k + 1])
    requires forall s, t, s' | inv(s) && next(s, t, s') :: inv(s')
    ensures inv(states[i])
  {
    if i > 0 {
      KeptThroughout(inv, next, states, steps, i - 1);
      assert next(states[i - 1], steps[i - 1], states[i]);
    }
  }
}
