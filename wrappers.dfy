/** Option and Result, the failure-compatible wrappers used with `:-`. */
module Wrappers {

  datatype Option<+T> = None | Some(value: T)

  datatype Result<+T, +E> = Ok(value: T) | Err(error: E) {

    predicate IsFailure() {
      Err?
    }

    function PropagateFailure<U>(): Result<U, E>
      requires Err?
    {
      Err(error)
    }

    function Extract(): T
      requires Ok?
    {
      value
    }
  }

  /** A loop over `xs[..n]` whose step `f(i, xs[i])` may raise: the step results
      in order, or the error of the first step that failed. */
  function MapUpTo<X, Y, E>(f: (nat, X) -> Result<Y, E>, xs: seq<X>, n: nat): Result<seq<Y>, E>
    requires n <= |xs|
  {
    if n == 0 then Ok([])
    else
      var init :- MapUpTo(f, xs, n - 1);
      var y :- f(n - 1, xs[n - 1]);
      Ok(init + [y])
  }

  /** Once step `i` fails, the whole loop fails with its error. */
  lemma {:induction false} MapStopsAt<X, Y, E>(f: (nat, X) -> Result<Y, E>, xs: seq<X>, i: nat, n: nat)
    requires i < n <= |xs|
    requires MapUpTo(f, xs, i).Ok?
    requires f(i, xs[i]).Err?
    ensures MapUpTo(f, xs, n) == Err(f(i, xs[i]).error)
    decreases n
  {
    if n > i + 1 {
      MapStopsAt(f, xs, i, n - 1);
    }
  }

  /** The loop succeeds exactly when every step does, and then holds one result
      per element, in order. */
  lemma {:induction false} MapPointwise<X, Y, E>(f: (nat, X) -> Result<Y, E>, xs: seq<X>, n: nat)
    requires n <= |xs|
    ensures MapUpTo(f, xs, n).Ok? <==> forall i :: 0 <= i < n ==> f(i, xs[i]).Ok?
    ensures MapUpTo(f, xs, n).Ok? ==>
      |MapUpTo(f, xs, n).value| == n &&
      forall i :: 0 <= i < n ==> f(i, xs[i]) == Ok(MapUpTo(f, xs, n).value[i])
  {
    if n > 0 {
      MapPointwise(f, xs, n - 1);
    }
  }
}
