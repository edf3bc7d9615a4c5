/** Optional values and results, standing in for TypeScript's `T | null | undefined`
    and for the "show a toast and return" error paths of the forms. */
module Optional {

  /** A value that may be missing. */
  datatype Option<+T> = None | Some(value: T) {

    /** The value if present, otherwise `default` (TypeScript's `??`). */
    function GetOr(default: T): T {
      match this
      case Some(v) => v
      case None => default
    }
  }

  /** The outcome of an operation that may be refused. */
  datatype Result<+R, +E> = Success(value: R) | Failure(error: E)

  /** The present values of `xs`, in order (`.filter(v => v !== null)`). */
  function Somes<T>(xs: seq<Option<T>>): (r: seq<T>)
    ensures |r| <= |xs|
    ensures forall i :: 0 <= i < |r| ==> Some(r[i]) in xs
    ensures forall i :: 0 <= i < |xs| && xs[i].Some? ==> xs[i].value in r
  {
    if |xs| == 0 then []
    else
      var rest := Somes(xs[1..]);
      match xs[0]
      case Some(v) => [v] + rest
      case None => rest
  }
}
