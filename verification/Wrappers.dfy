/** Failure-compatible types, folds and searches shared by the models. */
module Wrappers {

  datatype Option<+T> = None | Some(value: T)

  datatype Result<+T, +E> = Ok(value: T) | Err(error: E) {

    predicate IsFailure() {
      Err?
    }

    function PropagateFailure<U>(): Result<U, E>
      requires Err?
    {
      Err(error)
    }

    function Extract(): T
      requires Ok?
    {
      value
    }
  }

  /** Runs a step over a list, stopping at the first failure. */
  function Fold<A, X, E>(step: (A, X) -> Result<A, E>, acc: A, xs: seq<X>): Result<A, E>
    decreases |xs|
  {
    if xs == [] then Ok(acc)
    else
      var next :- step(acc, xs[0]);
      Fold(step, next, xs[1..])
  }

  lemma FoldUnfolds<A, X, E>(step: (A, X) -> Result<A, E>, acc: A, xs: seq<X>, i: nat)
    requires i < |xs|
    ensures Fold(step, acc, xs[i..]) == match step(acc, xs[i])
                                        case Ok(next) => Fold(step, next, xs[i + 1..])
                                        case Err(f) => Err(f)
  {}

  /** The index of the first element with the given key. */
  function FirstWith<T>(xs: seq<T>, key: T -> nat, k: nat): (r: Option<nat>)
    ensures r.Some? ==> r.value < |xs| && key(xs[r.value]) == k
    ensures r.None? ==> forall i :: 0 <= i < |xs| ==> key(xs[i]) != k
    ensures r.Some? ==> forall i :: 0 <= i < r.value ==> key(xs[i]) != k
    decreases |xs|
  {
    if xs == [] then None
    else if key(xs[0]) == k then Some(0)
    else match FirstWith(xs[1..], key, k)
         case None => None
         case Some(i) => Some(i + 1)
  }

  lemma SubsetSize<T>(a: set<T>, b: set<T>)
    requires a <= b
    ensures |a| <= |b|
  {
    assert b == a + (b - a);
  }

  predicate IsDigit(c: char) {
    '0' <= c <= '9'
  }

  lemma Regroup<T>(a: seq<T>, b: seq<T>, c: seq<T>)
    ensures (a + b) + c == a + (b + c)
  {}
}
