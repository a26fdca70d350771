/** Optional values and the three error kinds the services report. */
module Results {

  /** A value that may be absent (a Java reference that may be null). */
  datatype Option<+T> = None | Some(value: T)

  /** The service layer's exceptions: a missing or hidden entity, a business rule
      that refuses the request, a duplicate e-mail address, and an unchecked
      runtime exception the service does not anticipate (a bad sub-list range). */
  datatype Error = NotFound | Validation | Conflict | Unexpected

  /** Either the value an operation returns or the exception it throws. */
  datatype Result<+T> = Ok(value: T) | Err(error: Error) {
    predicate IsFailure() {
      Err?
    }

    function PropagateFailure<U>(): Result<U>
      requires Err?
    {
      Err(error)
    }

    function Extract(): T
      requires Ok?
    {
      value
    }
  }

  /** orElseThrow(NotFoundException): the found value, or NotFound. */
  function Found<T>(o: Option<T>): (r: Result<T>)
    ensures r.Ok? <==> o.Some?
    ensures r.Ok? ==> r.value == o.value
    ensures r.Err? ==> r.error == NotFound
  {
    match o
    case Some(v) => Ok(v)
    case None => Err(NotFound)
  }
}
