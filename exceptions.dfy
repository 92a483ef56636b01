/**
 * The exceptions the core throws or catches. The six application exception
 * classes of API_Application/Exceptions are variants of their own, and so is
 * each framework or library exception the core can raise; any other
 * exception is OtherException, identified by its type name.
 */
module Exceptions {

  /**
   * The SecurityTokenException subclasses token validation throws.
   * SecurityTokenMalformedException is not one of them: it derives from
   * ArgumentException, so a malformed token is an ArgumentException here.
   */
  datatype SecurityTokenError =
    | LifetimeExpired      // SecurityTokenExpiredException
    | InvalidSignature     // SecurityTokenInvalidSignatureException
    | InvalidIssuer        // SecurityTokenInvalidIssuerException
    | InvalidAudience      // SecurityTokenInvalidAudienceException
    | OtherSecurityTokenError(typeName: string)

  datatype Exception =
    | NotFoundException(message: string)
    | UnauthorizedException(message: string)
    | BadRequestException(message: string)
    | ForbiddenException(message: string)
    | ConflictException(message: string)
    | InternalServerException(message: string)
    | ArgumentNullException(paramName: string)
    | ArgumentException(message: string)
    | ArgumentOutOfRangeException(paramName: string, message: string)
    | InvalidOperationException(message: string)
    | FormatException(input: string)
    | OverflowException
    | SecurityTokenException(error: SecurityTokenError, message: string)
    | OtherException(typeName: string, message: string)

  /**
   * The code that opens the message of the ArgumentException the
   * SymmetricSecurityKey constructor throws on an empty key.
   */
  const KeyLengthZeroCode: string := "IDX10703"

  /** What the SymmetricSecurityKey constructor throws on an empty key. */
  function KeyLengthZero(): Exception {
    ArgumentException(KeyLengthZeroCode)
  }

  /** Exception.Message. */
  function Message(e: Exception): string {
    match e
    case NotFoundException(m) => m
    case UnauthorizedException(m) => m
    case BadRequestException(m) => m
    case ForbiddenException(m) => m
    case ConflictException(m) => m
    case InternalServerException(m) => m
    case ArgumentNullException(p) => "Value cannot be null. (Parameter '" + p + "')"
    case ArgumentException(m) => m
    case ArgumentOutOfRangeException(p, m) => m + " (Parameter '" + p + "')"
    case InvalidOperationException(m) => m
    case FormatException(input) => "The input string '" + input + "' was not in a correct format."
    case OverflowException => "Value was either too large or too small for an Int32."
    case SecurityTokenException(_, m) => m
    case OtherException(_, m) => m
  }
}
