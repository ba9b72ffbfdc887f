/** Values shared by every service of the model. */
module Common {

  /** Entity identifiers. The source uses time-based UUIDs; the model issues naturals from a
      per-table counter, so a larger id always means a later creation. */
  type Id = nat

  /** A Java reference that may be null. */
  datatype Option<+T> = None | Some(value: T)

  /** What a service call ends in: a value, or one of the three exceptions the resources
      translate (NoSuchElementException, IllegalArgumentException, OptimisticLockException). */
  datatype Outcome<+T> = Ok(value: T) | NotFound | InvalidArgument | Conflict {

    /** The same failure with another value type, or `v` on success. */
    function Forward<U>(v: U): (r: Outcome<U>)
      ensures r.Ok? <==> this.Ok?
      ensures r.NotFound? <==> this.NotFound?
      ensures r.InvalidArgument? <==> this.InvalidArgument?
      ensures r.Conflict? <==> this.Conflict?
      ensures r.Ok? ==> r.value == v
    {
      match this
      case Ok(_) => Ok(v)
      case NotFound => NotFound
      case InvalidArgument => InvalidArgument
      case Conflict => Conflict
    }
  }

  /** The HTTP status the resources answer with, `success` being 200, 201 or 204. */
  function HttpStatus<T>(o: Outcome<T>, success: int): int
  {
    match o
    case Ok(_) => success
    case NotFound => 404
    case InvalidArgument => 400
    case Conflict => 409
  }
}
