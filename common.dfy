/** Values shared by every service: optional values, the outcome of an
    operation that may throw, and the exceptions the services raise. */
module Common {

  datatype Option<+T> = None | Some(value: T)

  /** The values of a Java `int` (32-bit two's complement). */
  type Int32 = x: int | -0x8000_0000 <= x < 0x8000_0000

  /** The HTTP status an `ApiException` carries. */
  datatype HttpStatus = BadRequest | Unauthorized | NotFound | InternalServerError

  /** The exceptions that leave the modelled code. */
  datatype Exception =
    | ApiException(status: HttpStatus, message: string)
      /** raised by the authentication manager for rejected credentials */
    | AuthenticationException(message: string)
    | UsernameNotFoundException(message: string)
      /** raised by the database when a save breaks a unique column */
    | DataIntegrityViolation(message: string)
      /** raised by a lazy reference to a row that is no longer in its table */
    | EntityNotFound(message: string)
    | IOException(message: string)
      /** any other exception a collaborator throws */
    | RuntimeFailure(message: string)
  {
    /** `getMessage()` */
    function Message(): string {
      match this
      case ApiException(_, m) => m
      case AuthenticationException(m) => m
      case UsernameNotFoundException(m) => m
      case DataIntegrityViolation(m) => m
      case EntityNotFound(m) => m
      case IOException(m) => m
      case RuntimeFailure(m) => m
    }
  }

  /** A call that either returns a value or throws. */
  datatype Result<+T> = Success(value: T) | Failure(error: Exception)

  /** A call that returns nothing (`void`) but may throw. */
  datatype Outcome = Pass | Fail(error: Exception)
}
