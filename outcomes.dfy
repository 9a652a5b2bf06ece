/** Values that may be absent, and the outcome of a conversion that may throw
    or never return. */
module Outcomes {

  datatype Option<+T> = None | Some(value: T)

  /** The two error classes the converter throws: a plain `Error` (symbol
      literals) and a Convex `ConvexError` (every other unsupported schema). */
  datatype ErrorClass = PlainError | ConvexError

  /** Why a conversion produced no validator: it threw, or it recursed forever. */
  datatype Failure = Thrown(errorClass: ErrorClass, message: string) | NonTermination

  /** The outcome of a call: a value, or a failure and no partial result.
      Failure-compatible, so `var x :- e; ...` propagates the failure. */
  datatype Outcome<+T> = Ok(value: T) | Fail(failure: Failure) {

    predicate IsFailure() {
      Fail?
    }

    function PropagateFailure<U>(): Outcome<U>
      requires Fail?
    {
      Fail(failure)
    }

    function Extract(): T
      requires Ok?
    {
      value
    }
  }

  /** Index of the first failure in `rs`: every earlier entry succeeded. */
  predicate FirstFailureAt<T>(rs: seq<Outcome<T>>, i: int)
  {
    0 <= i < |rs| && rs[i].Fail? && forall j :: 0 <= j < i ==> rs[j].Ok?
  }

  /** Evaluates a list of outcomes left to right, as a JavaScript `map` whose
      callback may throw: either every entry succeeded and their values are
      collected in order, or the first failure is the result. */
  function AllOk<T>(rs: seq<Outcome<T>>): (r: Outcome<seq<T>>)
    ensures r.Ok? <==> forall i :: 0 <= i < |rs| ==> rs[i].Ok?
    ensures r.Ok? ==> |r.value| == |rs| && forall i :: 0 <= i < |rs| ==> rs[i] == Ok(r.value[i])
    ensures r.Fail? ==> exists i :: FirstFailureAt(rs, i) && r.failure == rs[i].failure
  {
    if rs == [] then Ok([])
    else if rs[0].Fail? then
      assert FirstFailureAt(rs, 0);
      Fail(rs[0].failure)
    else
      var rest := AllOk(rs[1..]);
      if rest.Fail? then
        var i :| FirstFailureAt(rs[1..], i) && rest.failure == rs[1..][i].failure;
        assert FirstFailureAt(rs, i + 1);
        Fail(rest.failure)
      else
        assert forall i :: 1 <= i < |rs| ==> rs[i] == rs[1..][i - 1];
        Ok([rs[0].value] + rest.value)
  }

  /** There is one first failure, and `AllOk` returns it. */
  lemma AllOkFirstFailure<T>(rs: seq<Outcome<T>>, i: int)
    requires FirstFailureAt(rs, i)
    ensures AllOk(rs) == Fail(rs[i].failure)
  {
    assert !rs[i].Ok?;
    assert AllOk(rs).Fail?;
    var j :| FirstFailureAt(rs, j) && AllOk(rs).failure == rs[j].failure;
  }
}
