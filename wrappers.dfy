/**
 * Optional values and the error outcomes of the network builders.
 *
 * Python's `None` for an optional keyword argument becomes `None` here; an exception
 * raised while a builder runs becomes `Err` carrying the kind of exception.
 */
module Wrappers {

  datatype Option<+T> = None | Some(value: T)

  /** The exceptions the builders can raise. */
  datatype Error =
    /** `record[key]` on a record without `key` (Python `KeyError`). */
    | KeyError(key: string)
    /** A raw value used as a dictionary key that cannot be hashed (a list or a dict). */
    | UnhashableKey
    /** A method called on a raw value of the wrong kind, e.g. `.split` on `None`. */
    | AttributeError(field: string)
    /** Schema coercion failed; `fields` names every failing top-level field, in declaration order. */
    | ValidationError(fields: seq<string>)

  datatype Result<+T> = Ok(value: T) | Err(error: Error)

  /**
   * Applies `f` to every element together with its position, in order, and stops at the
   * first failure: a Python loop or comprehension whose body may raise.
   */
  function MapWithIndex<A, B>(xs: seq<A>, f: (nat, A) -> Result<B>): (r: Result<seq<B>>)
    ensures r.Ok? <==> forall i :: 0 <= i < |xs| ==> f(i, xs[i]).Ok?
    ensures r.Ok? ==> |r.value| == |xs| && forall i :: 0 <= i < |xs| ==> f(i, xs[i]) == Ok(r.value[i])
  {
    if |xs| == 0 then Ok([])
    else
      var n := |xs| - 1;
      match MapWithIndex(xs[..n], f)
      case Err(e) => Err(e)
      case Ok(ys) =>
        match f(n, xs[n])
        case Err(e) => Err(e)
        case Ok(y) => Ok(ys + [y])
  }

  /** The error reported is that of the first element that fails. */
  lemma {:induction false} MapWithIndexFirstError<A, B>(xs: seq<A>, f: (nat, A) -> Result<B>, k: nat)
    requires k < |xs| && f(k, xs[k]).Err?
    requires forall i :: 0 <= i < k ==> f(i, xs[i]).Ok?
    ensures MapWithIndex(xs, f) == Err(f(k, xs[k]).error)
  {
    var n := |xs| - 1;
    if k < n {
      MapWithIndexFirstError(xs[..n], f, k);
    } else {
      assert forall i :: 0 <= i < n ==> xs[..n][i] == xs[i];
    }
  }

  /** One more element: how a loop that appends extends the result of the prefix done so far. */
  lemma MapWithIndexStep<A, B>(xs: seq<A>, f: (nat, A) -> Result<B>, n: nat, ys: seq<B>)
    requires n < |xs| && MapWithIndex(xs[..n], f) == Ok(ys)
    ensures f(n, xs[n]).Ok? ==> MapWithIndex(xs[..n + 1], f) == Ok(ys + [f(n, xs[n]).value])
    ensures f(n, xs[n]).Err? ==> MapWithIndex(xs, f) == Err(f(n, xs[n]).error)
  {
    assert xs[..n + 1][..n] == xs[..n];
    if f(n, xs[n]).Err? {
      assert forall i :: 0 <= i < n ==> xs[..n][i] == xs[i];
      MapWithIndexFirstError(xs, f, n);
    }
  }
}
