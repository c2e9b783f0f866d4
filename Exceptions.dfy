/** The service layer's exceptions, as values. Every failure the services raise is one of these tags. */
module Exceptions {

  datatype Option<T> = None | Some(value: T)

  datatype Error =
    | NotFound(message: string)       // NotFoundException
    | AlreadyExist(message: string)   // AlreadyExistException
    | AccessDenied(message: string)   // AccessException
    | ServiceFailure(message: string) // ServiceException
    | NumberFormat(input: string)     // java.lang.NumberFormatException from Integer.valueOf

  /** The result of an operation that returns a value or throws. */
  datatype Result<T> = Ok(value: T) | Err(error: Error)

  /** The result of a void operation: it completes or throws. */
  datatype Outcome = Done | Failed(error: Error)
}
