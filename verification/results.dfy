/** Optional values and the outcome of an operation that may raise. */
module Results {
  datatype Option<+T> = None | Some(value: T)
  datatype Result<+T, +E> = Ok(value: T) | Fail(error: E)

  /** A list comprehension whose element operation may raise: `f` is applied
      to each element in order, and the first failure ends the whole. */
  function Traverse<T, U, E>(xs: seq<T>, f: T -> Result<U, E>): (r: Result<seq<U>, E>)
    ensures r.Ok? ==> |r.value| == |xs|
  {
    if xs == [] then Ok([])
    else
      match f(xs[0])
      case Fail(e) => Fail(e)
      case Ok(h) =>
        match Traverse(xs[1..], f)
        case Fail(e) => Fail(e)
        case Ok(t) => Ok([h] + t)
  }

  /** The position of the first element whose operation fails, or `|xs|`. */
  function FirstFailure<T, U, E>(xs: seq<T>, f: T -> Result<U, E>): (k: nat)
    ensures k <= |xs|
    ensures forall j :: 0 <= j < k ==> f(xs[j]).Ok?
    ensures k < |xs| ==> f(xs[k]).Fail?
  {
    if xs == [] || f(xs[0]).Fail? then 0
    else
      var k := FirstFailure(xs[1..], f);
      assert forall j :: 1 <= j <= k ==> xs[j] == xs[1..][j - 1];
      1 + k
  }

  /** A traversal succeeds exactly when no element fails. */
  lemma {:induction false} TraverseSucceeds<T, U, E>(xs: seq<T>, f: T -> Result<U, E>)
    ensures Traverse(xs, f).Ok? <==> FirstFailure(xs, f) == |xs|
  {
    if xs != [] {
      TraverseSucceeds(xs[1..], f);
    }
  }

  /** On success, the i-th result is the i-th element's. */
  lemma {:induction false} TraversePointwise<T, U, E>(xs: seq<T>, f: T -> Result<U, E>)
    requires Traverse(xs, f).Ok?
    ensures forall i :: 0 <= i < |xs| ==> f(xs[i]) == Ok(Traverse(xs, f).value[i])
  {
    if xs != [] {
      TraversePointwise(xs[1..], f);
      var r := Traverse(xs, f).value;
      var t := Traverse(xs[1..], f).value;
      assert r == [f(xs[0]).value] + t;
      forall i | 1 <= i < |xs| ensures f(xs[i]) == Ok(r[i]) {
        assert r[i] == t[i - 1] && xs[i] == xs[1..][i - 1];
      }
    }
  }

  /** On failure, the error is the first failing element's. */
  lemma {:induction false} TraverseFirstError<T, U, E>(xs: seq<T>, f: T -> Result<U, E>)
    requires Traverse(xs, f).Fail?
    ensures FirstFailure(xs, f) < |xs|
    ensures f(xs[FirstFailure(xs, f)]) == Fail(Traverse(xs, f).error)
  {
    if f(xs[0]).Ok? {
      TraverseFirstError(xs[1..], f);
      assert xs[1..][FirstFailure(xs[1..], f)] == xs[FirstFailure(xs, f)];
    }
  }
}
