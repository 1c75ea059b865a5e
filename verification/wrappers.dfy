/** Failure-compatible wrappers for the error paths of the modelled code:
    `Option` stands for a Java reference that may be null, `Result` for a
    computation that may end in an exception (whose message is kept). */
module Wrappers {

  /** Names of the Java exceptions the modelled code can end in. */
  const NullPointer := "NullPointerException"
  const NumberFormat := "NumberFormatException"
  const IndexOutOfBounds := "ArrayIndexOutOfBoundsException"
  const ListIndexOutOfBounds := "IndexOutOfBoundsException"
  const NoSuchElement := "NoSuchElementException"
  const IllegalArgument := "IllegalArgumentException"
  const NegativeArraySize := "NegativeArraySizeException"

  datatype Option<+T> = None | Some(value: T)

  datatype Result<+T> = Ok(value: T) | Err(msg: string) {

    predicate IsFailure() {
      Err?
    }

    function PropagateFailure<U>(): Result<U>
      requires Err?
    {
      Err(msg)
    }

    function Extract(): T
      requires Ok?
    {
      value
    }
  }

  /** Applying a failing step to every element in order: the first failure
      ends the walk. */
  function MapAll<A, B>(xs: seq<A>, f: A -> Result<B>): (r: Result<seq<B>>)
    ensures r.Ok? ==> |r.value| == |xs|
  {
    if |xs| == 0 then Ok([])
    else
      var init :- MapAll(xs[..|xs| - 1], f);
      var y :- f(xs[|xs| - 1]);
      Ok(init + [y])
  }

  /** The walk succeeds iff every step does, and then holds every step's
      value in place. */
  lemma {:induction false} MapAllAt<A, B>(xs: seq<A>, f: A -> Result<B>)
    ensures MapAll(xs, f).Ok? <==> forall k :: 0 <= k < |xs| ==> f(xs[k]).Ok?
    ensures MapAll(xs, f).Ok? ==> forall k :: 0 <= k < |xs| ==> MapAll(xs, f).value[k] == f(xs[k]).value
  {
    if |xs| > 0 {
      var n := |xs| - 1;
      MapAllAt(xs[..n], f);
      assert forall k :: 0 <= k < n ==> xs[..n][k] == xs[k];
    }
  }
}
