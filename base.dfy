/** Failure-carrying wrappers shared by every module of the model.

    The Python program reports failures by raising exceptions; the model
    returns them as the `Failure` case of a `Result` and names the Python
    exception class that would have been raised. */
module Base {

  datatype Option<+T> = None | Some(value: T) {
    function GetOr(default: T): T {
      match this
      case Some(v) => v
      case None => default
    }
  }

  datatype Result<+R, +E> = Success(value: R) | Failure(error: E) {
    predicate IsFailure() {
      Failure?
    }

    function PropagateFailure<U>(): Result<U, E>
      requires Failure?
    {
      Failure(error)
    }

    function Extract(): R
      requires Success?
    {
      value
    }
  }

  /** The Python exceptions the modelled code can raise and not catch. */
  datatype Exception =
    | KeyError        // dict lookup of a missing key
    | IndexError      // list index out of range
    | ValueError      // int() or a date parser given malformed text
    | TypeError       // subtracting a naive datetime from an aware one, iterating a scalar
    | AttributeError  // calling .items() on something that is not a dict
    | StopIteration   // jq `.first()` on a query with no output
    | CookieError     // http.cookies given a cookie name it will not set
    | BrowserError    // a Playwright page action timed out or failed

  type Outcome<T> = Result<T, Exception>

  /** Applies `f` to each element of `xs` in order and concatenates the
      results, stopping at the first failure: a Python loop that extends a
      list and lets the first exception escape. */
  function FlatMap<A, B, E>(xs: seq<A>, f: A -> Result<seq<B>, E>): Result<seq<B>, E>
    decreases |xs|
  {
    if |xs| == 0 then Success([])
    else
      match FlatMap(xs[..|xs| - 1], f)
      case Failure(e) => Failure(e)
      case Success(ys) =>
        match f(xs[|xs| - 1])
        case Failure(e) => Failure(e)
        case Success(zs) => Success(ys + zs)
  }

  /** One more step of the loop `FlatMap` describes. */
  lemma FlatMapStep<A, B, E>(xs: seq<A>, f: A -> Result<seq<B>, E>, i: nat)
    requires i < |xs|
    ensures FlatMap(xs[..i + 1], f) ==
      match FlatMap(xs[..i], f)
      case Failure(e) => Failure(e)
      case Success(ys) =>
        match f(xs[i])
        case Failure(e) => Failure(e)
        case Success(zs) => Success(ys + zs)
  {
    assert xs[..i + 1][..i] == xs[..i];
  }

  /** Once the loop has failed, the remaining elements do not matter. */
  lemma {:induction false} FlatMapFailurePersists<A, B, E>(xs: seq<A>, f: A -> Result<seq<B>, E>, k: nat)
    requires k <= |xs| && FlatMap(xs[..k], f).Failure?
    ensures FlatMap(xs, f) == FlatMap(xs[..k], f)
    decreases |xs| - k
  {
    if k < |xs| {
      FlatMapStep(xs, f, k);
      FlatMapFailurePersists(xs, f, k + 1);
    } else {
      assert xs[..k] == xs;
    }
  }

  /** The loop succeeds exactly when every step succeeds, and then it
      collects exactly the elements of the steps' results. */
  lemma {:induction false} FlatMapSuccess<A, B, E>(xs: seq<A>, f: A -> Result<seq<B>, E>)
    ensures FlatMap(xs, f).Success? <==> forall i :: 0 <= i < |xs| ==> f(xs[i]).Success?
    ensures FlatMap(xs, f).Success? ==>
      forall y :: y in FlatMap(xs, f).value <==> exists i :: 0 <= i < |xs| && f(xs[i]).Success? && y in f(xs[i]).value
    decreases |xs|
  {
    if |xs| > 0 {
      var n := |xs| - 1;
      var front := xs[..n];
      FlatMapSuccess(front, f);
      assert forall i :: 0 <= i < n ==> front[i] == xs[i];
      if FlatMap(front, f).Success? && f(xs[n]).Success? {
        var ys := FlatMap(front, f).value;
        var zs := f(xs[n]).value;
        forall y
          ensures y in ys + zs <==> exists i :: 0 <= i < |xs| && f(xs[i]).Success? && y in f(xs[i]).value
        {
          if y in ys {
            var i :| 0 <= i < n && f(front[i]).Success? && y in f(front[i]).value;
            assert f(xs[i]).Success? && y in f(xs[i]).value;
          }
          if exists i :: 0 <= i < |xs| && f(xs[i]).Success? && y in f(xs[i]).value {
            var i :| 0 <= i < |xs| && f(xs[i]).Success? && y in f(xs[i]).value;
            if i < n {
              assert f(front[i]).Success? && y in f(front[i]).value;
            }
          }
        }
      }
    }
  }

  /** `FlatMap` in terms of membership: it succeeds iff `f` succeeds on
      every element, and then yields exactly what `f` yields on them. */
  lemma FlatMapMembers<A, B, E>(xs: seq<A>, f: A -> Result<seq<B>, E>)
    ensures FlatMap(xs, f).Success? <==> forall x :: x in xs ==> f(x).Success?
    ensures FlatMap(xs, f).Success? ==>
      forall y :: y in FlatMap(xs, f).value <==> exists x :: x in xs && f(x).Success? && y in f(x).value
  {
    FlatMapSuccess(xs, f);
    if forall i :: 0 <= i < |xs| ==> f(xs[i]).Success? {
      forall x | x in xs
        ensures f(x).Success?
      {
        var i :| 0 <= i < |xs| && xs[i] == x;
      }
    }
    if FlatMap(xs, f).Success? {
      forall y
        ensures y in FlatMap(xs, f).value ==> exists x :: x in xs && f(x).Success? && y in f(x).value
      {
        if y in FlatMap(xs, f).value {
          var i :| 0 <= i < |xs| && f(xs[i]).Success? && y in f(xs[i]).value;
          assert xs[i] in xs;
        }
      }
    }
  }
}
