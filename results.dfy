/** Optional values (Java's nullable references) and the outcomes of catalog
    operations (Java's thrown exceptions). */
module Results {

  /** A value that may be absent; Java's `null` is `None`. */
  datatype Option<+T> = None | Some(value: T)

  /** The exceptions a catalog operation can end with. */
  datatype Failure =
    | NotFound             // RuntimeException("Subscription not found")
    | AlreadyExists        // RuntimeException("Subscription with this name already exists")
    | ConstraintViolation  // bean validation of the entity at flush time
    | UniqueViolation      // the database's unique index on `name`

  /** Either the value an operation returns or the exception it throws.
      It is failure-compatible, so `:-` propagates an exception the way Java does. */
  datatype Result<+T> = Ok(value: T) | Err(error: Failure) {

    predicate IsFailure() {
      Err?
    }

    function PropagateFailure<U>(): Result<U>
      requires Err?
    {
      Err(error)
    }

    function Extract(): T
      requires Ok?
    {
      value
    }
  }
}
