/** Failure-carrying values used to model the Python exceptions that the
    staging code raises (and, in some places, swallows). */
module Wrappers {

  datatype Option<+T> = None | Some(value: T)

  /** The exception kinds that the modelled code can raise. */
  datatype PyError =
    | IndexError                  // a list index past the end
    | TypeError                   // an operation applied to None
    | FileExistsError(path: string)
    | FileNotFoundError(path: string)
    | IsADirectoryError(path: string)
    | NotADirectoryError(path: string)

  /** The value of an expression that either returns or raises. */
  datatype Result<+T> = Ok(value: T) | Err(error: PyError)

  /** The effect of a statement that either completes or raises. */
  datatype Outcome = Pass | Fail(error: PyError)

  /** True when no element occurs twice. */
  predicate NoDuplicates<T(==)>(s: seq<T>) {
    forall i, j :: 0 <= i < j < |s| ==> s[i] != s[j]
  }

  /** `list(xs)` for a set: each element once, in an order left open. */
  method ListSet<T(==)>(xs: set<T>) returns (s: seq<T>)
    ensures NoDuplicates(s)
    ensures forall x :: x in s <==> x in xs
  {
    var remaining := xs;
    s := [];
    while remaining != {}
      invariant NoDuplicates(s)
      invariant forall x :: x in s ==> x !in remaining
      invariant forall x :: x in xs <==> x in s || x in remaining
      decreases |remaining|
    {
      var x :| x in remaining;
      s := s + [x];
      remaining := remaining - {x};
    }
  }
}
