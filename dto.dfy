/** The records that travel in requests and responses (ServiceContracts.DTO and ErrorResponse). */
module Dto {

  /** The token pair and its expiry instants (seconds since the Unix epoch) sent to the client. */
  datatype AuthenticationResponse = AuthenticationResponse(
    token: string,
    email: string,
    personName: string,
    expiration: int,
    refreshToken: string,
    refreshTokenExpirationDateTime: int)

  /** The body the error-handling middleware writes (declared beside that middleware). */
  datatype ErrorResponse = ErrorResponse(statusCode: int, message: string)

  /** The fields of RegisterDTO that the account controller reads. */
  datatype RegisterDto = RegisterDto(personName: string, email: string, phoneNumber: string, password: string)

  datatype LoginDto = LoginDto(email: string, password: string)
}
