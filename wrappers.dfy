/** Failure-carrying result types shared by every module of the model.
    The C++ sources report errors by throwing `std::invalid_argument` with a
    message; the model returns that exception as a value instead. */
module Wrappers {

  datatype Option<T> = None | Some(value: T)

  /** The exception a C++ member throws. */
  datatype Error = InvalidArgument(message: string)

  /** A value, or the exception thrown while computing it. */
  datatype Result<T> = Success(value: T) | Failure(error: Error)

  /** Completion of a `void` member: it returned, or it threw. */
  datatype Outcome = Pass | Fail(error: Error)

  /** The elements of a sequence, as a set. */
  function Elements<T>(s: seq<T>): set<T>
  {
    set x | x in s
  }

  /** A sequence without repeated elements, such as the iteration order of a
      hash set. */
  predicate Distinct<T(==)>(s: seq<T>)
  {
    forall i, j :: 0 <= i < j < |s| ==> s[i] != s[j]
  }

  /** The elements of a sequence without repeats are as many as its
      positions. */
  lemma {:induction false} DistinctCard<T>(s: seq<T>)
    requires Distinct(s)
    ensures |Elements(s)| == |s|
  {
    if |s| > 0 {
      var init := s[..|s| - 1];
      DistinctCard(init);
      assert Elements(s) == Elements(init) + {s[|s| - 1]};
    }
  }

  /** `orderOf` gives, for every set of terms, an iteration order of it:
      each element once.  It stands for the order a hash set of those terms
      is traversed in. */
  ghost predicate IterationOrder(orderOf: set<int> -> seq<int>)
  {
    forall s :: Distinct(orderOf(s)) && Elements(orderOf(s)) == s
  }

  /** Some element of a non-empty set. */
  ghost function Pick<T>(s: set<T>): (x: T)
    requires s != {}
    ensures x in s
  {
    var x :| x in s; x
  }

  /** Appending a new element keeps a sequence free of repeats. */
  lemma DistinctSnoc<T>(s: seq<T>, x: T)
    requires Distinct(s) && x !in Elements(s)
    ensures Distinct(s + [x]) && Elements(s + [x]) == Elements(s) + {x}
  {
    assert forall i :: 0 <= i < |s| ==> (s + [x])[i] == s[i];
  }

  /** Some iteration order of a hash set: every element once. */
  method Enumerate<T>(s: set<T>) returns (order: seq<T>)
    ensures Distinct(order) && Elements(order) == s
  {
    order := [];
    var rest := s;
    while rest != {}
      invariant Distinct(order) && Elements(order) + rest == s && Elements(order) !! rest
      decreases |rest|
    {
      var x :| x in rest;
      DistinctSnoc(order, x);
      order := order + [x];
      rest := rest - {x};
    }
  }
}
