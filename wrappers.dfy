/** Option and Result, used wherever the source returns None or raises. */
module Wrappers {

  datatype Option<+T> = None | Some(value: T)

  datatype Result<+R, +E> = Success(value: R) | Failure(error: E) {
    predicate IsFailure() {
      Failure?
    }

    function PropagateFailure<U>(): Result<U, E>
      requires Failure?
    {
      Failure(error)
    }

    function Extract(): R
      requires Success?
    {
      value
    }
  }

  /**
   * Runs `f` over `xs` in order and concatenates what it returns; the first
   * failure ends the run and is the result (an exception raised inside nested
   * loops that append to one list).
   */
  function Collect<X, Y, E>(xs: seq<X>, f: X -> Result<seq<Y>, E>): Result<seq<Y>, E>
  {
    if xs == [] then Success([])
    else
      var r := Collect(xs[..|xs| - 1], f);
      var last := f(xs[|xs| - 1]);
      if r.Failure? then r
      else if last.Failure? then Failure(last.error)
      else Success(r.value + last.value)
  }

  /** The run succeeds exactly when every step does. */
  lemma {:induction false} CollectSuccess<X, Y, E>(xs: seq<X>, f: X -> Result<seq<Y>, E>)
    ensures Collect(xs, f).Success? <==> forall i :: 0 <= i < |xs| ==> f(xs[i]).Success?
  {
    if xs != [] {
      var front := xs[..|xs| - 1];
      CollectSuccess(front, f);
      assert forall i :: 0 <= i < |front| ==> front[i] == xs[i];
    }
  }

  /** A successful run holds exactly the items the steps returned. */
  lemma {:induction false} CollectMember<X, Y, E>(xs: seq<X>, f: X -> Result<seq<Y>, E>, y: Y)
    requires Collect(xs, f).Success?
    ensures y in Collect(xs, f).value <==> exists i :: 0 <= i < |xs| && f(xs[i]).Success? && y in f(xs[i]).value
  {
    if xs != [] {
      var front := xs[..|xs| - 1];
      CollectMember(front, f, y);
      assert forall i :: 0 <= i < |front| ==> front[i] == xs[i];
      if exists i :: 0 <= i < |xs| && f(xs[i]).Success? && y in f(xs[i]).value {
        var i :| 0 <= i < |xs| && f(xs[i]).Success? && y in f(xs[i]).value;
        if i < |front| {
          assert f(front[i]).Success? && y in f(front[i]).value;
        }
      }
    }
  }

  /** A failed run fails with the error of its first failing step. */
  lemma {:induction false} CollectFailure<X, Y, E>(xs: seq<X>, f: X -> Result<seq<Y>, E>)
    requires Collect(xs, f).Failure?
    ensures exists i :: 0 <= i < |xs| && f(xs[i]).Failure? && Collect(xs, f).error == f(xs[i]).error &&
                        (forall j :: 0 <= j < i ==> f(xs[j]).Success?)
  {
    var front := xs[..|xs| - 1];
    assert forall i :: 0 <= i < |front| ==> front[i] == xs[i];
    if Collect(front, f).Failure? {
      CollectFailure(front, f);
    } else {
      CollectSuccess(front, f);
    }
  }

  /** Extending a run by one more item. */
  lemma CollectSnoc<X, Y, E>(xs: seq<X>, f: X -> Result<seq<Y>, E>, i: nat)
    requires i < |xs|
    ensures Collect(xs[..i + 1], f) ==
      if Collect(xs[..i], f).Failure? then Collect(xs[..i], f)
      else if f(xs[i]).Failure? then Failure(f(xs[i]).error)
      else Success(Collect(xs[..i], f).value + f(xs[i]).value)
  {
    assert xs[..i + 1][..i] == xs[..i];
  }

  /** Once a prefix of the run has failed, the whole run fails the same way. */
  lemma {:induction false} CollectPrefixFailure<X, Y, E>(xs: seq<X>, f: X -> Result<seq<Y>, E>, i: nat)
    requires i <= |xs| && Collect(xs[..i], f).Failure?
    ensures Collect(xs, f) == Collect(xs[..i], f)
    decreases |xs| - i
  {
    if i < |xs| {
      CollectSnoc(xs, f, i);
      CollectPrefixFailure(xs, f, i + 1);
    } else {
      assert xs[..i] == xs;
    }
  }

  /** A step that fails after a run of successful ones decides the whole run. */
  lemma CollectFailsAt<X, Y, E>(xs: seq<X>, f: X -> Result<seq<Y>, E>, i: nat)
    requires i < |xs| && Collect(xs[..i], f).Success? && f(xs[i]).Failure?
    ensures Collect(xs, f) == Failure(f(xs[i]).error)
  {
    CollectSnoc(xs, f, i);
    CollectPrefixFailure(xs, f, i + 1);
  }
}
