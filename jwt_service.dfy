/**
 * JwtService: issues an access token and a refresh token for a user, and
 * validates an access token. Serialising and signing a token and validating
 * one are library code (JwtSecurityTokenHandler) and enter as parameters.
 * Instants are seconds since the Unix epoch.
 */
module JwtService {
  import opened Wrappers
  import opened Text
  import Base64
  import opened Exceptions
  import opened AppConfiguration
  import opened Identity
  import opened Dto

  /** The claim types an access token carries: JwtRegisteredClaimNames and ClaimTypes. */
  datatype ClaimType = Sub | Jti | Iat | NameIdentifier | Name | EmailAddress

  /** The claim type as it is written into the token. */
  function ClaimTypeName(t: ClaimType): string {
    match t
    case Sub => "sub"
    case Jti => "jti"
    case Iat => "iat"
    case NameIdentifier => "http://schemas.xmlsoap.org/ws/2005/05/identity/claims/nameidentifier"
    case Name => "http://schemas.xmlsoap.org/ws/2005/05/identity/claims/name"
    case EmailAddress => "http://schemas.xmlsoap.org/ws/2005/05/identity/claims/emailaddress"
  }

  /** Claim value types: ClaimValueTypes.String and ClaimValueTypes.Integer64. */
  datatype ClaimValueType = StringValue | Integer64Value

  /** SecurityAlgorithms.HmacSha256: HMAC with SHA-256, section 3.2 of RFC 7518. */
  const HmacSha256: string := "HS256"

  /** The size of the random buffer a refresh token encodes. */
  const RefreshTokenBytes: nat := 64

  const KeyMissingMessage: string := "JWT Key is missing from configuration."

  datatype Claim = Claim(claimType: ClaimType, value: string, valueType: ClaimValueType)

  datatype SigningCredentials = SigningCredentials(key: string, algorithm: string)

  /** A JwtSecurityToken before serialisation. */
  datatype JwtSecurityToken = JwtSecurityToken(
    issuer: Option<string>,
    audience: Option<string>,
    claims: seq<Claim>,
    expires: int,
    credentials: SigningCredentials)

  /**
   * JwtSecurityTokenHandler.WriteToken: the compact serialisation of RFC 7519
   * and RFC 7515, signed as the credentials say; it may throw.
   */
  type TokenWriter = JwtSecurityToken -> Result<string, Exception>

  datatype ValidationParameters = ValidationParameters(
    validateIssuer: bool,
    validateAudience: bool,
    validIssuer: Option<string>,
    validAudience: Option<string>,
    validateLifetime: bool,
    signingKey: string)

  type ClaimsPrincipal = seq<Claim>

  /**
   * What JwtSecurityTokenHandler.ValidateToken does with a token: returns the
   * principal, throws a SecurityTokenException, or throws something else.
   */
  datatype TokenValidation =
    | Validated(principal: ClaimsPrincipal)
    | Rejected(error: SecurityTokenError, message: string)
    | Faulted(exception: Exception)

  /** JwtSecurityTokenHandler.ValidateToken, with the clock it reads built in. */
  type TokenValidator = (string, ValidationParameters) -> TokenValidation

  /** The message of the ArgumentOutOfRangeException DateTime arithmetic throws. */
  const DateArithmeticMessage: string := "The added or subtracted value results in an un-representable DateTime."

  /**
   * DateTime.AddMinutes, in whole minutes: the instant `minutes` later, which
   * must lie between DateTime.MinValue and DateTime.MaxValue; otherwise
   * DateTime throws ArgumentOutOfRangeException for its parameter `value`.
   */
  function AddMinutes(instant: int, minutes: int): (r: Result<int, Exception>)
    ensures r.Success? <==> DateTimeMinValue <= instant + 60 * minutes <= DateTimeMaxValue
    ensures r.Success? ==> r.value - instant == 60 * minutes
    ensures r.Failure? ==> r.error == ArgumentOutOfRangeException("value", DateArithmeticMessage)
  {
    var later := instant + 60 * minutes;
    if DateTimeMinValue <= later <= DateTimeMaxValue then Success(later)
    else Failure(ArgumentOutOfRangeException("value", DateArithmeticMessage))
  }

  /** DateTime.UtcNow.AddMinutes(Convert.ToDouble(configuration["Jwt:EXPIRATION_MINUTES"])). */
  function AccessExpiration(config: Configuration, now: int): Result<int, Exception> {
    match ConfiguredMinutes(config.Get(JwtExpirationMinutes))
    case Failure(e) => Failure(e)
    case Success(minutes) => AddMinutes(now, minutes)
  }

  /** DateTime.UtcNow.AddMinutes(Convert.ToInt32(configuration["RefreshToken:EXPIRATION_MINUTES"])). */
  function RefreshExpiration(config: Configuration, now: int): Result<int, Exception> {
    match ConfiguredInt32(config.Get(RefreshTokenExpirationMinutes))
    case Failure(e) => Failure(e)
    case Success(minutes) => AddMinutes(now, minutes)
  }

  /** The value of the first claim of the given type. */
  function FindClaim(claims: seq<Claim>, claimType: ClaimType): Option<string> {
    if claims == [] then None
    else if claims[0].claimType == claimType then Some(claims[0].value)
    else FindClaim(claims[1..], claimType)
  }

  /** The claims an access token carries for `user`, with token id `jti`, issued at `now`. */
  function UserClaims(user: ApplicationUser, jti: string, now: int): (r: seq<Claim>)
    ensures |r| == 6
    ensures forall k :: 0 <= k < |r| ==> (r[k].valueType == Integer64Value <==> r[k].claimType == Iat)
  {
    [ Claim(Sub, user.id, StringValue),
      Claim(Jti, jti, StringValue),
      Claim(Iat, IntToString(now), Integer64Value),
      Claim(NameIdentifier, user.email, StringValue),
      Claim(Name, user.personName, StringValue),
      Claim(EmailAddress, user.email, StringValue) ]
  }

  /**
   * The claims identify the user: subject is the user id, name identifier and
   * email are the email, name is the person name, the token id is `jti`, and
   * the issued-at claim reads back as `now`.
   */
  lemma UserClaimsIdentifyUser(user: ApplicationUser, jti: string, now: int)
    ensures var claims := UserClaims(user, jti, now);
      && FindClaim(claims, Sub) == Some(user.id)
      && FindClaim(claims, Jti) == Some(jti)
      && FindClaim(claims, NameIdentifier) == Some(user.email)
      && FindClaim(claims, Name) == Some(user.personName)
      && FindClaim(claims, EmailAddress) == Some(user.email)
      && FindClaim(claims, Iat).Some?
      && ParseInt(FindClaim(claims, Iat).value) == Some(now)
  {
    var c0 := UserClaims(user, jti, now);
    var c1, c2, c3, c4, c5 := c0[1..], c0[2..], c0[3..], c0[4..], c0[5..];
    assert c1 == c0[1..] && c2 == c1[1..] && c3 == c2[1..] && c4 == c3[1..] && c5 == c4[1..];
    assert FindClaim(c5, EmailAddress) == Some(user.email);
    assert FindClaim(c4, EmailAddress) == Some(user.email) && FindClaim(c4, Name) == Some(user.personName);
    assert FindClaim(c3, EmailAddress) == Some(user.email) && FindClaim(c3, NameIdentifier) == Some(user.email);
    assert FindClaim(c3, Name) == Some(user.personName);
    assert FindClaim(c2, EmailAddress) == Some(user.email) && FindClaim(c2, Iat) == Some(IntToString(now));
    assert FindClaim(c2, Name) == Some(user.personName) && FindClaim(c2, NameIdentifier) == Some(user.email);
    assert FindClaim(c1, EmailAddress) == Some(user.email) && FindClaim(c1, Iat) == Some(IntToString(now));
    assert FindClaim(c1, Name) == Some(user.personName) && FindClaim(c1, NameIdentifier) == Some(user.email);
    ParseIntToString(now);
  }

  /** The token CreateJwtToken serialises. */
  function AccessToken(config: Configuration, user: ApplicationUser, now: int, jti: string, expiration: int, key: string): JwtSecurityToken {
    JwtSecurityToken(config.Get(JwtIssuer), config.Get(JwtAudience), UserClaims(user, jti, now), expiration, SigningCredentials(key, HmacSha256))
  }

  /**
   * CreateJwtToken(user) at instant `now`, with `jti` the fresh Guid of the
   * token id claim and `randomBytes` what the random number generator yields.
   * The steps run, and fail, in the source's order: null user, access-token
   * expiry, signing key, serialisation, refresh-token expiry; when none
   * fails, a response is issued.
   */
  function CreateJwtToken(config: Configuration, writeToken: TokenWriter, user: Option<ApplicationUser>,
                          now: int, jti: string, randomBytes: seq<Base64.byte>): (r: Result<AuthenticationResponse, Exception>)
    requires |randomBytes| == RefreshTokenBytes
    ensures user.None? ==> r == Failure(ArgumentNullException("user"))
    ensures user.Some? && AccessExpiration(config, now).Failure? ==> r == Failure(AccessExpiration(config, now).error)
    ensures user.Some? && AccessExpiration(config, now).Success? && config.Get(JwtKey).None?
      ==> r == Failure(InvalidOperationException(KeyMissingMessage))
    ensures user.Some? && AccessExpiration(config, now).Success? && config.Get(JwtKey).Some?
      ==> r == SignAndRespond(config, writeToken, user.value, now, jti, randomBytes,
                              AccessExpiration(config, now).value, config.Get(JwtKey).value)
    ensures r.Success? <==>
      && user.Some? && AccessExpiration(config, now).Success?
      && config.Get(JwtKey).Some? && config.Get(JwtKey).value != ""
      && writeToken(AccessToken(config, user.value, now, jti, AccessExpiration(config, now).value, config.Get(JwtKey).value)).Success?
      && RefreshExpiration(config, now).Success?
    ensures r.Success? ==>
      && r.value.email == user.value.email
      && r.value.personName == user.value.personName
      && r.value.expiration == AccessExpiration(config, now).value
      && r.value.refreshTokenExpirationDateTime == RefreshExpiration(config, now).value
      && writeToken(AccessToken(config, user.value, now, jti, r.value.expiration, config.Get(JwtKey).value)) == Success(r.value.token)
    ensures r.Success? ==> r.value.refreshToken == Base64.Encode(randomBytes)
    ensures r.Success? ==> |r.value.refreshToken| == 88 && Base64.Decode(r.value.refreshToken) == Some(randomBytes)
  {
    if user.None? then Failure(ArgumentNullException("user"))
    else
      match AccessExpiration(config, now)
      case Failure(e) => Failure(e)
      case Success(expiration) =>
        match config.Get(JwtKey)
        case None => Failure(InvalidOperationException(KeyMissingMessage))
        case Some(key) => SignAndRespond(config, writeToken, user.value, now, jti, randomBytes, expiration, key)
  }

  /**
   * The refresh token issued for the random bytes `randomBytes`: their base64
   * text, 88 characters long, which decodes back to them.
   */
  function RefreshTokenFor(randomBytes: seq<Base64.byte>): (token: string)
    requires |randomBytes| == RefreshTokenBytes
    ensures |token| == 88
    ensures Base64.Decode(token) == Some(randomBytes)
  {
    Base64.DecodeEncode(randomBytes);
    var token := Base64.Encode(randomBytes);
    assert (64 + 2) / 3 == 22;
    token
  }

  /**
   * The steps of CreateJwtToken once the access-token expiry and the key are
   * read: building the key from an empty string throws, then serialisation
   * may throw, then the refresh-token expiry may; otherwise the response.
   */
  function SignAndRespond(config: Configuration, writeToken: TokenWriter, user: ApplicationUser, now: int, jti: string,
                          randomBytes: seq<Base64.byte>, expiration: int, key: string): (r: Result<AuthenticationResponse, Exception>)
    requires |randomBytes| == RefreshTokenBytes
    ensures key == "" ==> r == Failure(KeyLengthZero())
    ensures key != "" && writeToken(AccessToken(config, user, now, jti, expiration, key)).Failure?
      ==> r == Failure(writeToken(AccessToken(config, user, now, jti, expiration, key)).error)
    ensures key != "" && writeToken(AccessToken(config, user, now, jti, expiration, key)).Success?
      && RefreshExpiration(config, now).Failure?
      ==> r == Failure(RefreshExpiration(config, now).error)
    ensures r.Success? <==>
      key != "" && writeToken(AccessToken(config, user, now, jti, expiration, key)).Success? && RefreshExpiration(config, now).Success?
    ensures r.Success? ==>
      && r.value.email == user.email
      && r.value.personName == user.personName
      && r.value.expiration == expiration
      && r.value.refreshTokenExpirationDateTime == RefreshExpiration(config, now).value
      && writeToken(AccessToken(config, user, now, jti, expiration, key)) == Success(r.value.token)
    ensures r.Success? ==> r.value.refreshToken == Base64.Encode(randomBytes)
    ensures r.Success? ==> |r.value.refreshToken| == 88 && Base64.Decode(r.value.refreshToken) == Some(randomBytes)
  {
    if key == "" then Failure(KeyLengthZero())
    else
      match writeToken(AccessToken(config, user, now, jti, expiration, key))
      case Failure(e) => Failure(e)
      case Success(token) =>
        match RefreshExpiration(config, now)
        case Failure(e) => Failure(e)
        case Success(refreshExpiration) =>
          Success(AuthenticationResponse(token, user.email, user.personName, expiration,
                                         RefreshTokenFor(randomBytes), refreshExpiration))
  }

  /**
   * RandomNumberGenerator.GetBytes(buffer): fills the buffer in place with the
   * generator's output, here `random`.
   */
  method FillRandom(buffer: array<Base64.byte>, random: seq<Base64.byte>)
    requires buffer.Length == |random|
    modifies buffer
    ensures buffer[..] == random
  {
    var i := 0;
    while i < buffer.Length
      invariant 0 <= i <= buffer.Length
      invariant buffer[..i] == random[..i]
    {
      buffer[i] := random[i];
      i := i + 1;
    }
  }

  /**
   * GenerateRefreshToken: a fresh 64-byte buffer filled by the random number
   * generator (whose output is `random`), returned as base64 text.
   */
  method GenerateRefreshToken(random: seq<Base64.byte>) returns (token: string)
    requires |random| == RefreshTokenBytes
    ensures token == RefreshTokenFor(random)
    ensures |token| == 88 && Base64.Decode(token) == Some(random)
  {
    var bytes := new Base64.byte[RefreshTokenBytes];
    FillRandom(bytes, random);
    token := Base64.Encode(bytes[..]);
  }

  /**
   * Two refresh tokens issued from different random buffers differ: a
   * rotated refresh token never equals the one it replaces unless the
   * generator repeated all 64 bytes.
   */
  lemma RefreshTokensDiffer(config: Configuration, writeToken: TokenWriter,
                            u1: Option<ApplicationUser>, u2: Option<ApplicationUser>, t1: int, t2: int,
                            j1: string, j2: string, b1: seq<Base64.byte>, b2: seq<Base64.byte>)
    requires |b1| == RefreshTokenBytes && |b2| == RefreshTokenBytes && b1 != b2
    requires CreateJwtToken(config, writeToken, u1, t1, j1, b1).Success?
    requires CreateJwtToken(config, writeToken, u2, t2, j2, b2).Success?
    ensures CreateJwtToken(config, writeToken, u1, t1, j1, b1).value.refreshToken
         != CreateJwtToken(config, writeToken, u2, t2, j2, b2).value.refreshToken
  {
  }

  /**
   * The user record once the issued refresh token and its expiry are stored
   * in it (user.RefreshToken and user.RefreshTokenExpirationDateTime are set
   * from the response); the rest of the record is kept.
   */
  function Rotated(user: ApplicationUser, auth: AuthenticationResponse): (r: ApplicationUser)
    ensures r.refreshToken == Some(auth.refreshToken)
    ensures r.refreshTokenExpirationDateTime == auth.refreshTokenExpirationDateTime
    ensures r.id == user.id && r.userName == user.userName && r.email == user.email
    ensures r.phoneNumber == user.phoneNumber && r.personName == user.personName
  {
    user.(refreshToken := Some(auth.refreshToken), refreshTokenExpirationDateTime := auth.refreshTokenExpirationDateTime)
  }

  /** The parameters GetPrincipalFromJwtToken validates with. */
  function ServiceValidationParameters(config: Configuration): (r: ValidationParameters)
    ensures r.validateIssuer && r.validateAudience && r.validateLifetime
    ensures r.validIssuer == config.Get(JwtIssuer) && r.validAudience == config.Get(JwtAudience)
    ensures r.signingKey == "" <==> config.Get(JwtKey).None? || config.Get(JwtKey).value == ""
    ensures config.Get(JwtKey).Some? ==> r.signingKey == config.Get(JwtKey).value
  {
    ValidationParameters(true, true, config.Get(JwtIssuer), config.Get(JwtAudience), true, config.Get(JwtKey).GetOr(""))
  }

  /**
   * GetPrincipalFromJwtToken(token): null for a null or empty token and for a
   * token validation rejects with a SecurityTokenException; the principal for
   * a valid one. A missing key reads as "", and building a key from no bytes
   * throws an ArgumentException, which escapes like every other
   * non-SecurityTokenException.
   */
  function GetPrincipalFromJwtToken(config: Configuration, validate: TokenValidator, token: Option<string>)
    : (r: Result<Option<ClaimsPrincipal>, Exception>)
    ensures token.None? || token.value == "" ==> r == Success(None)
    ensures r.Success? && r.value.Some? <==>
      && token.Some? && token.value != ""
      && ServiceValidationParameters(config).signingKey != ""
      && validate(token.value, ServiceValidationParameters(config)).Validated?
    ensures r.Success? && r.value.Some? ==> r.value.value == validate(token.value, ServiceValidationParameters(config)).principal
    ensures r.Failure? <==>
      && token.Some? && token.value != ""
      && (ServiceValidationParameters(config).signingKey == ""
          || validate(token.value, ServiceValidationParameters(config)).Faulted?)
  {
    if token.None? || token.value == "" then Success(None)
    else
      var parameters := ServiceValidationParameters(config);
      if parameters.signingKey == "" then Failure(KeyLengthZero())
      else
        match validate(token.value, parameters)
        case Validated(principal) => Success(Some(principal))
        case Rejected(_, _) => Success(None)
        case Faulted(e) => Failure(e)
  }
}
