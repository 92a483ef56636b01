# Order Management API: authentication core in Dafny

This project models the authentication and error-reporting core of an
ASP.NET Core order-management web API and proves properties of it:

- **JwtRefreshMiddleware** (module `RefreshMiddleware`): for each request,
  reads the `Authorization: Bearer <token>` header (section 2.1 of RFC 6750),
  validates the token, passes valid requests on, lets every validation
  failure other than expiry escape, and on an expired token answers the
  request itself. It looks up the user holding the `RefreshToken` header's
  value, checks that token's expiry, issues a new token pair, and rotates the
  stored refresh token. The middleware is a class over the user store; its
  methods `Invoke` and `RefreshTokenAsync` change the store and the response
  in place. They are proved equal to the functions `InvokeSpec` and
  `RefreshTokenSpec`, and the lemmas state the properties about those.
- **JwtService** (module `JwtService`): `CreateJwtToken` builds the claims,
  the access-token expiry, the serialised token, the refresh token (base64
  of 64 random bytes, section 4 of RFC 4648) and its expiry, failing in the
  source's order. `GenerateRefreshToken` fills a buffer and encodes it.
  `GetPrincipalFromJwtToken` returns null for a missing token or a rejected
  one.
- **AccountController** (module `Account`): register, login and check-email
  over a user store. `GenerateJwtToken` stores the issued refresh token in
  the user record, which is the value the refresh middleware later looks up
  (`LoginThenRefresh`).
- **ExceptionHandlingMiddleware** (module `ExceptionHandling`): the total map
  from exception kind to HTTP status, and the JSON `ErrorResponse` written
  for a caught exception.

Shared modules: `Text` (ordinal `StartsWith`, `Trim`, `string.Join`,
ignore-case comparison, decimal integers), `Base64` (encoding and its
decoding partner, with the round trip proved), `AppConfiguration`
(`IConfiguration` with case-insensitive keys, and `Convert.ToDouble` /
`Convert.ToInt32` of configured minutes), `Identity` (the user record and
store, lookups by refresh token and by email), `Http` (request, response,
`HttpContext`), `Exceptions`, `Dto`, `Seqs` and `Wrappers`.

Instants are whole seconds since the Unix epoch. The clock, the token id
Guid, the random bytes, the JWT serialiser (`WriteToken`), the validator
(`ValidateToken`), `UserManager.CreateAsync` and
`SignInManager.PasswordSignInAsync` are parameters.

Where the code behaves differently from what its names and comments
suggest, the model follows the code:

- A validation failure other than expiry is not answered 401 by the
  middleware: only `SecurityTokenExpiredException` is caught, so every
  other exception escapes (`OnlyExpiryRefreshes`).
- A refresh token whose expiry equals the current instant is still
  accepted, because the check is `expiry < now`
  (`UnknownOrExpiredRefreshTokenRejected`).
- Missing issuer, audience or lifetime settings are not configuration
  errors. A missing lifetime reads as 0 minutes, and only a missing
  `Jwt:Key` throws (`CreateJwtToken`).
- `CreateJwtToken` can throw more than the two exceptions its comment
  lists. It also throws `FormatException`, `OverflowException` and
  `ArgumentOutOfRangeException` from the lifetime settings, and
  `ArgumentException` for an empty key.
- The middleware reads the issuer under `JWT:Issure`, not `Jwt:Issuer`
  (`IssuerKeyMismatch`).

## Model

| member | source | states |
|---|---|---|
| Text.Trim | API_Application/Middleware/JwtRefreshMiddleware.cs:36 | `string.Trim`: the result is the slice of the input left after the whitespace at both ends; what was cut is whitespace and the result neither starts nor ends with whitespace |
| Text.Join | API_Application/Controllers/AccountController.cs:150 | `string.Join`: no parts give "", one part gives that part, and with more parts the first part opens the result |
| Text.JoinParts | API_Application/Controllers/AccountController.cs:150 | `string.Join`: every part stands at its offset in the joined string, followed by the separator unless it is the last, and the last part ends the string |
| Text.JoinPartAt | API_Application/Controllers/AccountController.cs:150 | `string.Join`: part k stands at its offset, and the last part ends the joined string |
| Text.JoinSeparatorAfter | API_Application/Controllers/AccountController.cs:150 | `string.Join`: the separator follows every part but the last |
| Text.ParseIntToString | Services/JWTService/JwtService.cs:49 | the decimal text of an integer parses back to the same integer |
| Text.ParseInt | Services/JWTService/JwtService.cs:43 | the integer text `Convert` accepts here: a number exactly when the text is an optional sign followed by one or more ASCII digits |
| Text.ParseIntSignsAndZeros | Services/JWTService/JwtService.cs:43 | the value read from digit text is the number the digits denote; a leading "+" changes nothing, a leading "-" negates, and a leading zero is ignored |
| Base64.Encode | Services/JWTService/JwtService.cs:90 | `Convert.ToBase64String` yields 4 characters per started group of 3 bytes, all from the base64 alphabet or padding |
| Base64.DecodeEncode | Services/JWTService/JwtService.cs:90 | decoding the base64 text of any byte sequence gives the bytes back |
| Base64.EncodeInjective | Services/JWTService/JwtService.cs:85-91 | different byte buffers give different base64 texts |
| AppConfiguration.Configuration.Get | Services/JWTService/JwtService.cs:43 | `configuration[key]` is null exactly when no entry's key matches ignoring case, and otherwise the value of the first entry that matches |
| AppConfiguration.GetIgnoresCase | API_Application/Middleware/JwtRefreshMiddleware.cs:41 | two keys equal ignoring case read the same value |
| AppConfiguration.GetSkipsOtherKey | API_Application/Middleware/JwtRefreshMiddleware.cs:41-47 | an entry whose key does not match the one read, put first, does not change what is read |
| AppConfiguration.ConfiguredMinutes | Services/JWTService/JwtService.cs:43 | `Convert.ToDouble` of the setting: null reads as 0, a decimal integer as its value, and any other text fails with `FormatException` carrying that text |
| AppConfiguration.ConfiguredInt32 | Services/JWTService/JwtService.cs:77 | `Convert.ToInt32` of the setting: succeeds exactly as `ConfiguredMinutes` does when the value is in the Int32 range, with the same result; unparsable text fails with `FormatException`, and a value outside the Int32 range fails with `OverflowException` |
| Http.FirstOrDefault | API_Application/Middleware/JwtRefreshMiddleware.cs:32 | the first value of a header, and null exactly when the header has no value |
| Http.WriteText | API_Application/Middleware/JwtRefreshMiddleware.cs:71 | `WriteAsync(text)` appends the text to the body and keeps status and content type |
| Http.WriteJson | API_Application/Middleware/JwtRefreshMiddleware.cs:92-93 | `WriteAsJsonAsync` keeps the status, sets the content type to "application/json; charset=utf-8" over the one set on line 92, and appends the response |
| Identity.FindByRefreshToken | API_Application/Middleware/JwtRefreshMiddleware.cs:75 | the first user whose refresh token equals the given one; none exactly when no user holds it |
| Identity.FindByEmail | API_Application/Controllers/AccountController.cs:74 | the first user whose email matches ignoring case; none exactly when no email matches |
| JwtService.UserClaimsIdentifyUser | Services/JWTService/JwtService.cs:45-53 | the claims carry subject = user id, jti = the fresh id, name identifier = email, name = person name, email = email, and an issued-at that reads back as the current instant |
| JwtService.UserClaims | Services/JWTService/JwtService.cs:45-53 | six claims, of which only the issued-at claim has the Integer64 value type |
| JwtService.AddMinutes | Services/JWTService/JwtService.cs:43 | `DateTime.AddMinutes`: the instant 60 seconds per minute later when it lies between `DateTime.MinValue` and `DateTime.MaxValue`; otherwise `ArgumentOutOfRangeException` for the parameter `value` |
| JwtService.ServiceValidationParameters | Services/JWTService/JwtService.cs:108-117 | issuer, audience and lifetime are validated against `Jwt:Issuer` and `Jwt:Audience`; the signing key is `Jwt:Key`, and it is empty exactly when the setting is missing or empty |
| JwtService.CreateJwtToken | Services/JWTService/JwtService.cs:39-79 | the failures come in the source's order: null user gives `ArgumentNullException("user")`, then the access-token expiry's exception, then a missing `Jwt:Key` gives `InvalidOperationException`, then the steps of `SignAndRespond`. A response is issued exactly when none of these fails. It carries the user's email and person name, the access expiry now plus `Jwt:EXPIRATION_MINUTES`, and the refresh expiry now plus `RefreshToken:EXPIRATION_MINUTES`. The token is the serialisation of the user's claims signed with HS256, and the refresh token is `Base64.Encode` of the random bytes: 88 characters that decode back to them |
| JwtService.SignAndRespond | Services/JWTService/JwtService.cs:56-78 | the steps after the key is read, failing in order: an empty key gives `KeyLengthZero`, then the serialiser's exception, then the refresh-token expiry's exception. Success happens exactly when none fails, and carries the user's email and name, the given expiry, the serialised token, and `Base64.Encode` of the random bytes |
| JwtService.RefreshTokenFor | Services/JWTService/JwtService.cs:90 | the refresh token of a 64-byte buffer is 88 characters and decodes back to the buffer |
| JwtService.GenerateRefreshToken | Services/JWTService/JwtService.cs:85-91 | a fresh 64-byte buffer filled by the generator, returned as base64 that decodes back to the generator's bytes |
| JwtService.FillRandom | Services/JWTService/JwtService.cs:87-89 | the buffer holds exactly the generator's output |
| JwtService.RefreshTokensDiffer | Services/JWTService/JwtService.cs:76 | two issuances from different random buffers give different refresh tokens |
| JwtService.Rotated | API_Application/Middleware/JwtRefreshMiddleware.cs:87-88 | storing an issued pair sets the user's refresh token and expiry to the response's and keeps id, user name, email, phone number and person name |
| JwtService.GetPrincipalFromJwtToken | Services/JWTService/JwtService.cs:101-126 | null for a null or empty token; a principal exactly when the token is non-empty, the key is non-empty and validation succeeds, and it is the validated one; an exception exactly when the key is empty or validation throws something other than a `SecurityTokenException`; null for every `SecurityTokenException` |
| RefreshMiddleware.BearerToken | API_Application/Middleware/JwtRefreshMiddleware.cs:32-36 | a token is examined exactly when the first Authorization value exists and starts with "Bearer " (ordinal) |
| RefreshMiddleware.BearerTokenIsTrimmedRest | API_Application/Middleware/JwtRefreshMiddleware.cs:36 | the header is "Bearer ", whitespace, the token and whitespace, and the token neither starts nor ends with whitespace |
| RefreshMiddleware.MiddlewareValidationParameters | API_Application/Middleware/JwtRefreshMiddleware.cs:41-50 | the parameters exist exactly when `JWT:Key` is present and non-empty. A missing key gives `ArgumentNullException("s")` and an empty one `KeyLengthZero`, neither caught by the middleware. The signing key is `JWT:Key`, the issuer is read from `JWT:Issure` and the audience from `JWT:Audience`, and issuer, audience and lifetime are all validated |
| RefreshMiddleware.PassesOnIffNoBearerOrValid | API_Application/Middleware/JwtRefreshMiddleware.cs:32-62 | the next stage runs exactly when there is no bearer token or it validates, and then the store and response are untouched |
| RefreshMiddleware.OnlyExpiryRefreshes | API_Application/Middleware/JwtRefreshMiddleware.cs:39-59 | an unbuildable key, any rejection other than expiry, and any other exception escape with store and response untouched; only expiry enters the refresh |
| RefreshMiddleware.RefreshNeverPassesOn | API_Application/Middleware/JwtRefreshMiddleware.cs:54-58 | after the refresh path, success or failure, the next stage is not called |
| RefreshMiddleware.MissingRefreshTokenRejected | API_Application/Middleware/JwtRefreshMiddleware.cs:67-73 | a missing or empty RefreshToken header gives 401 with "Refresh token is required." and no store change |
| RefreshMiddleware.UnknownOrExpiredRefreshTokenRejected | API_Application/Middleware/JwtRefreshMiddleware.cs:75-81 | the answer is 401 "Invalid or expired refresh token." with no store change exactly when no user holds the token or the holder's expiry is before now (an expiry equal to now is accepted) |
| RefreshMiddleware.RefreshRotatesHolder | API_Application/Middleware/JwtRefreshMiddleware.cs:84-93 | on success the holder becomes `Rotated(holder, response)`: only its refresh token and expiry change, to the issued ones, and id, user name, email, phone number and person name are kept. Every other user is unchanged, and the issued response is appended as JSON with the status kept |
| RefreshMiddleware.RotationRevokesPresentedToken | API_Application/Middleware/JwtRefreshMiddleware.cs:75-89 | after a rotation the presented token is held by no user, so presenting it again gives 401 and changes nothing |
| RefreshMiddleware.RotatedTokenFindsHolder | API_Application/Middleware/JwtRefreshMiddleware.cs:75-89 | after a rotation the new token finds the same user and only that user |
| RefreshMiddleware.MiddlewareReadsServiceKeys | API_Application/Middleware/JwtRefreshMiddleware.cs:41-47 | the middleware's `JWT:Key` and `JWT:Audience` read the same settings as the service's `Jwt:Key` and `Jwt:Audience` |
| RefreshMiddleware.MiddlewareIgnoresServiceIssuer | API_Application/Middleware/JwtRefreshMiddleware.cs:41-50 | `Jwt:Issuer` matches none of the keys the middleware reads, ignoring case (in particular not `JWT:Issure`), so for every configuration an entry under it leaves the middleware's validation parameters unchanged |
| RefreshMiddleware.IssuerKeyMismatch | API_Application/Middleware/JwtRefreshMiddleware.cs:46 | an example: with the issuer configured under `Jwt:Issuer`, the service uses it while the middleware validates against no issuer |
| RefreshMiddleware.JwtRefreshMiddleware.Invoke | API_Application/Middleware/JwtRefreshMiddleware.cs:30-63 | the store, response, next-stage flag and outcome after a request are those `InvokeSpec` gives |
| RefreshMiddleware.JwtRefreshMiddleware.RefreshTokenAsync | API_Application/Middleware/JwtRefreshMiddleware.cs:65-94 | the store, response and outcome after a refresh are those `RefreshTokenSpec` gives, and the next stage is not called |
| Account.AllErrors | API_Application/Controllers/AccountController.cs:150 | the flattened error list is empty exactly when no bound value has an error |
| Account.AllErrorsAppend | API_Application/Controllers/AccountController.cs:150 | `SelectMany` keeps order and repetition: the messages of two runs of values are those of the first run followed by those of the second |
| Account.AllErrorsOfOne | API_Application/Controllers/AccountController.cs:150 | the messages of a single value are its errors as they are |
| Account.AllErrorsPosition | API_Application/Controllers/AccountController.cs:150 | message i of value k stands at position i after all messages of the values before k |
| Account.AllErrorsHoldsEach | API_Application/Controllers/AccountController.cs:150 | every error message of every value is in the flattened list |
| Account.AllErrorsHoldsOnlyThose | API_Application/Controllers/AccountController.cs:150 | the flattened list holds only the values' error messages |
| Account.GetModelErrors | API_Application/Controllers/AccountController.cs:148-151 | a valid model state gives ""; a single error message is reported as it is |
| Account.GetModelErrorsParts | API_Application/Controllers/AccountController.cs:148-151 | each model error stands at its offset in the text, followed by " \| " unless last |
| Account.Descriptions | API_Application/Controllers/AccountController.cs:160 | one description per identity error, in order |
| Account.GetIdentityErrors | API_Application/Controllers/AccountController.cs:158-161 | no errors give ""; a single error gives its description as it is |
| Account.GetIdentityErrorsParts | API_Application/Controllers/AccountController.cs:158-161 | each identity error description stands at its offset in the text, followed by " \| " unless last |
| Account.InvalidModelStateRejected | API_Application/Controllers/AccountController.cs:42-45 | an invalid model state gives BadRequest with the joined errors for register and login, with the store unchanged, and there is at least one error |
| Account.RegisterCreateFailure | API_Application/Controllers/AccountController.cs:55-59 | a refused user gives BadRequest with the joined descriptions, with no user added and no token issued |
| Account.NewUser | API_Application/Controllers/AccountController.cs:47-53 | the user built for a registration: user name and email are the email given, phone number and person name are copied, and no refresh token has been issued |
| Account.RegisterSuccess | API_Application/Controllers/AccountController.cs:40-65 | success means a valid model and an accepted user; one user is appended with user name = email, email, phone number and person name from the request, holding the returned refresh token and expiry |
| Account.LoginCredentialFailure | API_Application/Controllers/AccountController.cs:91-96 | rejected credentials give 401 "Invalid email or password" with the store unchanged |
| Account.LoginUserNotFound | API_Application/Controllers/AccountController.cs:98-102 | accepted credentials with no user of that email give NotFound "User not found." |
| Account.LoginStoresIssuedToken | API_Application/Controllers/AccountController.cs:98-105 | a successful login issued the tokens of the user with that email, who now holds the returned refresh token and expiry; no other user changes |
| Account.LoginThenRefresh | API_Application/Controllers/AccountController.cs:135-142 | the refresh token a login stores is found by the refresh middleware before its expiry, which rotates that user's token or lets the service's exception escape |
| Account.AccountController.PostRegister | API_Application/Controllers/AccountController.cs:40-65 | store and result after a register are those `RegisterSpec` gives |
| Account.AccountController.PostLogin | API_Application/Controllers/AccountController.cs:84-108 | store and result after a login are those `LoginSpec` gives |
| Account.AccountController.IsEmailAlreadyRegistered | API_Application/Controllers/AccountController.cs:72-76 | answers Ok(true) exactly when no user's email matches ignoring case |
| Account.AccountController.GenerateJwtToken | API_Application/Controllers/AccountController.cs:135-142 | issues the tokens and stores the refresh token and expiry in the user, or lets the service's exception escape with the store unchanged |
| ExceptionHandling.StatusCodeFor | API_Application/Middleware/ExceptionHandlingMiddleware.cs:48-57 | 404 exactly for NotFound, 401 for Unauthorized, 400 for BadRequest, 403 for Forbidden, 409 for Conflict, 500 for InternalServer and every other exception; always one of these |
| ExceptionHandling.HandledResponseReportsException | API_Application/Middleware/ExceptionHandlingMiddleware.cs:59-69 | the body appended is an ErrorResponse whose StatusCode is the status set and whose Message is the exception's message; content type is application/json |
| ExceptionHandling.ExceptionHandlingMiddleware.InvokeAsync | API_Application/Middleware/ExceptionHandlingMiddleware.cs:33-44 | the next stage runs; an exception it throws is answered as an error response and never escapes |
| ExceptionHandling.ExceptionHandlingMiddleware.HandleExceptionAsync | API_Application/Middleware/ExceptionHandlingMiddleware.cs:46-70 | the response gets the JSON content type, the mapped status and the serialised ErrorResponse |

## Left out

- JWT serialisation, HMAC-SHA256 signing and `JwtSecurityTokenHandler.ValidateToken` are library code. They are the parameters `writeToken` and `validate`, and their clock, clock skew and signature checks are not modelled.
- The random number generator is a parameter (`random`), and the token id Guid is a parameter (`jti`). Freshness is assumed only where a lemma says so (`RotationRevokesPresentedToken` requires the presented token not to decode to the new bytes).
- The clock is read once per operation (`now`). The source reads `DateTime.UtcNow` up to three times in `CreateJwtToken` and once more in the middleware.
- ConfiguredMinutes: `Convert.ToDouble` and `AddMinutes` work on doubles. The model takes whole minutes written as an optional sign followed by decimal digits. Fractions, exponents, surrounding whitespace, group separators and culture-specific forms are not modelled; such text is treated as unparsable.
- Exceptions.SecurityTokenError: `SecurityTokenMalformedException` derives from `ArgumentException` in the token library, so the model gives it no variant of its own. A validator that throws it returns `Faulted` with an `ArgumentException`, which escapes from both `GetPrincipalFromJwtToken` and the middleware.
- JwtService.AddMinutes: the message of the `ArgumentOutOfRangeException` is the one for a result out of range. A minute count so large that .NET rejects it before adding raises the same exception type with a different message.
- Exceptions.KeyLengthZero: the message of the `ArgumentException` for an empty key is abbreviated to its code `IDX10703`.
- `StartsWith("Bearer ")` is culture-sensitive in .NET. The model compares ordinally, which agrees for this ASCII prefix except for ignorable characters.
- Case-insensitive comparison of configuration keys and emails folds ASCII letters only. Identity's email normalisation (`ToUpperInvariant`) also folds other letters.
- Identity.FindByEmail: `FindByEmailAsync` uses `SingleOrDefault` and throws when two users share a normalised email. The model takes the first match.
- Identity.FindByRefreshToken: the database compares refresh tokens with its collation. The model compares them ordinally.
- `SignInUser` (a cookie sign-in) and `GetLogout` are not modelled. They do not touch the refresh token or the response the core returns.
- The result of `UserManager.UpdateAsync` and of `SaveChangesAsync` is ignored by the source. The model stores the new values unconditionally, and a persistence failure is not modelled.
- A null `Email` or `PersonName` on a user, and a null `email` query parameter, are not modelled: strings are never null here.
- `[ApiController]` on the account controller makes ASP.NET Core answer an invalid model state with its own 400 ProblemDetails response before the action runs, because the automatic model-state filter is not suppressed. The model runs the action's own check (lines 42-45 and 86-89), which is what the action does when the filter is absent.
- Account.IsValid: `ModelState.IsValid` is also false for entries that were never validated and have no errors. The model's model state records only error messages, so in the model an invalid state always has at least one error. `InvalidModelStateRejected`'s "at least one error" follows from that modelling choice, not from the framework.
- JSON serialisation of `AuthenticationResponse` and `ErrorResponse` is not modelled; the body records the value written.
- ExceptionHandling.ExceptionHandlingMiddleware.InvokeAsync: a response whose headers were already sent cannot change status. The model does not capture that case.
- Async execution, concurrent requests and the read-then-write race between two refreshes of the same token are not modelled; each request runs alone.
- The scoped `ApplicationDbContext` captured by the middleware is modelled as one shared store.
- Logging, `Console.WriteLine`, dependency-injection and pipeline wiring, the order-item controller, the error controller, migrations and seed data are outside the core.
