/** The outcome of every fallible operation of the controller: a PHP
    `throw new Exception(...)` becomes a `Failure`. */
module Results {

  datatype Result<+T, +E> = Success(value: T) | Failure(error: E)
}
