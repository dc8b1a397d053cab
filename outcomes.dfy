/** Outcomes of the service operations.

    The two services report failure in three different ways, and the model keeps them apart:
    - the category service *returns* an HttpException object as the resolved value of its promise
      (Reply.ErrorValue);
    - the order service *throws* an HttpException from getOne and delete (Result.Thrown with Http);
    - order creation catches whatever was thrown and rethrows it wrapped in a plain Error
      (Result.Thrown with Wrapped), so the HTTP status of the inner exception is no longer visible
      as an HttpException to the caller. */
module Outcomes {

  datatype Option<+T> = None | Some(value: T)

  /** HttpStatus.BAD_REQUEST, the only status either service uses. */
  const BadRequest: nat := 400

  /** What can be raised or returned as an error. */
  datatype Failure =
    | Http(status: nat, message: string)   // new HttpException(message, status)
    | Wrapped(inner: Failure)              // new Error(e) around a caught exception
    | Database(message: string)            // a rejection coming from the persistence layer

  /** Result of an operation that throws on failure. */
  datatype Result<+T> = Ok(value: T) | Thrown(failure: Failure)

  /** Result of an operation that resolves to an error object instead of throwing. */
  datatype Reply<+T> = Value(value: T) | ErrorValue(error: Failure)
}
