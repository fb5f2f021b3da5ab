/** Optional values, and results that carry an error. */
module Results {
  datatype Option<+T> = None | Some(value: T)

  datatype Result<+T> = Ok(value: T) | Err(error: string) {
    predicate IsFailure() { Err? }

    function PropagateFailure<U>(): Result<U>
      requires Err?
    {
      Err(error)
    }

    function Extract(): T
      requires Ok?
    {
      value
    }
  }

  /** A check that fails with `error`. */
  function Check(condition: bool, error: string): (r: Result<()>)
    ensures r.Ok? <==> condition
  {
    if condition then Ok(()) else Err(error)
  }
}
