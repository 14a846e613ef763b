module Wrappers {
  datatype Option<+T> = None | Some(value: T)
  datatype Result<+T, +E> = Success(value: T) | Failure(error: E)

  /**
   * Evaluates the results in order as a Python loop or comprehension does:
   * the first failure is raised, otherwise all values are collected.
   */
  function Collect<T, E>(rs: seq<Result<T, E>>): Result<seq<T>, E> {
    if rs == [] then Success([])
    else
      match Collect(rs[..|rs| - 1])
      case Failure(e) => Failure(e)
      case Success(vs) =>
        match rs[|rs| - 1]
        case Failure(e) => Failure(e)
        case Success(v) => Success(vs + [v])
  }

  /** Collecting succeeds exactly when every result does, and then keeps every value in place. */
  lemma {:induction false} CollectSpec<T, E>(rs: seq<Result<T, E>>)
    ensures Collect(rs).Success? <==> forall k :: 0 <= k < |rs| ==> rs[k].Success?
    ensures Collect(rs).Success? ==>
      |Collect(rs).value| == |rs| && forall k :: 0 <= k < |rs| ==> Collect(rs).value[k] == rs[k].value
  {
    if rs != [] {
      var init := rs[..|rs| - 1];
      CollectSpec(init);
      assert forall k :: 0 <= k < |init| ==> init[k] == rs[k];
    }
  }

  /** Collecting raises the error of the first failing result. */
  lemma {:induction false} CollectFirstError<T, E>(rs: seq<Result<T, E>>, k: nat)
    requires k < |rs| && rs[k].Failure?
    requires forall j :: 0 <= j < k ==> rs[j].Success?
    ensures Collect(rs) == Failure(rs[k].error)
  {
    var init := rs[..|rs| - 1];
    if k == |rs| - 1 {
      CollectSpec(init);
    } else {
      CollectFirstError(init, k);
    }
  }

  /** Collecting one more result: an earlier failure wins, else the new result is raised or appended. */
  lemma CollectSnoc<T, E>(rs: seq<Result<T, E>>, r: Result<T, E>)
    ensures Collect(rs + [r]) == match Collect(rs)
      case Failure(e) => Failure(e)
      case Success(vs) => (match r case Failure(e) => Failure(e) case Success(v) => Success(vs + [v]))
  {
    assert (rs + [r])[..|rs|] == rs;
  }
  /** One more step of a loop over `rs`: collecting the first `i + 1` results from the first `i`. */
  lemma CollectStep<T, E>(rs: seq<Result<T, E>>, i: nat)
    requires i < |rs|
    ensures Collect(rs[..i + 1]) == match Collect(rs[..i])
      case Failure(e) => Failure(e)
      case Success(vs) => (match rs[i] case Failure(e) => Failure(e) case Success(v) => Success(vs + [v]))
  {
    CollectSnoc(rs[..i], rs[i]);
    assert rs[..i + 1] == rs[..i] + [rs[i]];
  }

  /** A loop over `rs` that reaches a failure after `i` successes raises that failure. */
  lemma CollectStopsAt<T, E>(rs: seq<Result<T, E>>, i: nat)
    requires i < |rs| && Collect(rs[..i]).Success? && rs[i].Failure?
    ensures Collect(rs) == Failure(rs[i].error)
  {
    CollectSpec(rs[..i]);
    assert forall j :: 0 <= j < i ==> rs[..i][j] == rs[j];
    CollectFirstError(rs, i);
  }

  /** A loop over `rs` that runs to the end collects everything. */
  lemma CollectAll<T, E>(rs: seq<Result<T, E>>)
    ensures Collect(rs[..|rs|]) == Collect(rs)
  {
    assert rs[..|rs|] == rs;
  }
}
