/**
 * JwtRefreshMiddleware: reads the bearer token of each request; a valid
 * token passes the request on, an expired one makes the middleware answer
 * the request itself by rotating the caller's refresh token, and any other
 * validation failure escapes as an exception.
 *
 * InvokeSpec and RefreshTokenSpec state what one request does to the user
 * store and the response; the methods of the class do it in place and are
 * proved to agree with them; the lemmas state the properties.
 */
module RefreshMiddleware {
  import opened Wrappers
  import opened Text
  import Base64
  import opened Exceptions
  import opened AppConfiguration
  import opened Identity
  import opened Dto
  import opened Http
  import opened JwtService

  /** The authentication scheme of section 2.1 of RFC 6750, with its separating space. */
  const BearerPrefix: string := "Bearer "

  // Configuration keys as this middleware spells them ("Issure" is the source's spelling).
  const MiddlewareKeyKey: string := "JWT:Key"
  const MiddlewareIssuerKey: string := "JWT:Issure"
  const MiddlewareAudienceKey: string := "JWT:Audience"

  const RefreshTokenRequired: string := "Refresh token is required."
  const InvalidOrExpiredRefreshToken: string := "Invalid or expired refresh token."

  /** The token of an "Authorization: Bearer <token>" header: the rest of the header, trimmed. */
  function BearerToken(authorization: Option<string>): (r: Option<string>)
    ensures r.Some? <==> authorization.Some? && StartsWith(authorization.value, BearerPrefix)
  {
    if authorization.Some? && StartsWith(authorization.value, BearerPrefix) then
      Some(Trim(authorization.value[|BearerPrefix|..]))
    else None
  }

  /**
   * The token examined is the header after "Bearer ", less the whitespace at
   * both ends: the header is the prefix, some whitespace, the token, and some
   * whitespace, and the token neither starts nor ends with whitespace.
   */
  lemma BearerTokenIsTrimmedRest(header: string)
    requires StartsWith(header, BearerPrefix)
    ensures BearerToken(Some(header)).Some?
    ensures var token, rest := BearerToken(Some(header)).value, header[|BearerPrefix|..];
      var lead, trail := rest[..LeadingWhiteSpace(rest)], rest[LeadingWhiteSpace(rest) + |token|..];
      && header == BearerPrefix + lead + token + trail
      && AllWhiteSpace(lead) && AllWhiteSpace(trail)
      && (token == [] || (!IsWhiteSpace(token[0]) && !IsWhiteSpace(token[|token| - 1])))
  {
    PrefixThenTrimmed(header, BearerPrefix);
  }

  /**
   * The validation parameters the middleware builds. Encoding.UTF8.GetBytes
   * throws on a null key and the SymmetricSecurityKey constructor on an
   * empty one; neither is the exception the middleware catches.
   */
  function MiddlewareValidationParameters(config: Configuration): (r: Result<ValidationParameters, Exception>)
    ensures r.Success? <==> config.Get(MiddlewareKeyKey).Some? && config.Get(MiddlewareKeyKey).value != ""
    ensures r.Success? ==> r.value.validIssuer == config.Get(MiddlewareIssuerKey)
    ensures r.Success? ==> r.value.validAudience == config.Get(MiddlewareAudienceKey)
    ensures r.Success? ==> r.value.signingKey == config.Get(MiddlewareKeyKey).value
    ensures config.Get(MiddlewareKeyKey).None? ==> r == Failure(ArgumentNullException("s"))
    ensures config.Get(MiddlewareKeyKey) == Some("") ==> r == Failure(KeyLengthZero())
    ensures r.Success? ==> r.value.validateIssuer && r.value.validateAudience && r.value.validateLifetime
  {
    match config.Get(MiddlewareKeyKey)
    case None => Failure(ArgumentNullException("s"))
    case Some(key) =>
      if key == "" then Failure(KeyLengthZero())
      else Success(ValidationParameters(true, true, config.Get(MiddlewareIssuerKey), config.Get(MiddlewareAudienceKey), true, key))
  }

  /** What one request does: the new store, the new response, whether the next stage runs, and how the stage ends. */
  datatype Effect = Effect(users: seq<ApplicationUser>, response: Response, callsNext: bool, outcome: PipelineOutcome)

  /** Status 401 followed by a plain-text reason. */
  function Unauthorized(response: Response, reason: string): Response {
    WriteText(response.(statusCode := Status401Unauthorized), reason)
  }

  /** RefreshTokenAsync, with `now` the clock and `jti`, `random` the fresh values token issuance draws. */
  function RefreshTokenSpec(config: Configuration, writeToken: TokenWriter, users: seq<ApplicationUser>,
                            request: Request, response: Response, now: int, jti: string, random: seq<Base64.byte>): Effect
    requires |random| == RefreshTokenBytes
  {
    var refreshToken := FirstOrDefault(request.refreshToken);
    if refreshToken.None? || refreshToken.value == "" then
      Effect(users, Unauthorized(response, RefreshTokenRequired), false, Completed)
    else
      match FindByRefreshToken(users, refreshToken.value)
      case None => Effect(users, Unauthorized(response, InvalidOrExpiredRefreshToken), false, Completed)
      case Some(i) =>
        if users[i].refreshTokenExpirationDateTime < now then
          Effect(users, Unauthorized(response, InvalidOrExpiredRefreshToken), false, Completed)
        else
          match CreateJwtToken(config, writeToken, Some(users[i]), now, jti, random)
          case Failure(e) => Effect(users, response, false, Propagated(e))
          case Success(auth) =>
            Effect(users[i := Rotated(users[i], auth)],
                   WriteJson(response.(contentType := Some(JsonContentType)), auth), false, Completed)
  }

  /** Invoke: the whole middleware for one request. */
  function InvokeSpec(config: Configuration, writeToken: TokenWriter, validate: TokenValidator, users: seq<ApplicationUser>,
                      request: Request, response: Response, now: int, jti: string, random: seq<Base64.byte>): Effect
    requires |random| == RefreshTokenBytes
  {
    var passThrough := Effect(users, response, true, Completed);
    match BearerToken(FirstOrDefault(request.authorization))
    case None => passThrough
    case Some(token) =>
      match MiddlewareValidationParameters(config)
      case Failure(e) => Effect(users, response, false, Propagated(e))
      case Success(parameters) =>
        match validate(token, parameters)
        case Validated(_) => passThrough
        case Rejected(LifetimeExpired, _) => RefreshTokenSpec(config, writeToken, users, request, response, now, jti, random)
        case Rejected(error, message) => Effect(users, response, false, Propagated(SecurityTokenException(error, message)))
        case Faulted(e) => Effect(users, response, false, Propagated(e))
  }

  // ---- properties of one request ----

  /**
   * The request goes on to the next stage exactly when it carries no bearer
   * token or its token validates; it then leaves the store and the response
   * alone.
   */
  lemma PassesOnIffNoBearerOrValid(config: Configuration, writeToken: TokenWriter, validate: TokenValidator,
                                   users: seq<ApplicationUser>, request: Request, response: Response,
                                   now: int, jti: string, random: seq<Base64.byte>)
    requires |random| == RefreshTokenBytes
    ensures var e := InvokeSpec(config, writeToken, validate, users, request, response, now, jti, random);
      var token := BearerToken(FirstOrDefault(request.authorization));
      e.callsNext <==>
        (token.None?
         || (MiddlewareValidationParameters(config).Success?
             && validate(token.value, MiddlewareValidationParameters(config).value).Validated?))
    ensures var e := InvokeSpec(config, writeToken, validate, users, request, response, now, jti, random);
      e.callsNext ==> e.users == users && e.response == response && e.outcome == Completed
  {
  }

  /**
   * Only an expired access token makes the middleware answer the request
   * itself: any other validation failure, and a key it cannot build, escape
   * as exceptions with the store and the response untouched.
   */
  lemma OnlyExpiryRefreshes(config: Configuration, writeToken: TokenWriter, validate: TokenValidator,
                            users: seq<ApplicationUser>, request: Request, response: Response,
                            now: int, jti: string, random: seq<Base64.byte>, token: string)
    requires |random| == RefreshTokenBytes
    requires BearerToken(FirstOrDefault(request.authorization)) == Some(token)
    ensures var e := InvokeSpec(config, writeToken, validate, users, request, response, now, jti, random);
      MiddlewareValidationParameters(config).Failure? ==>
        e == Effect(users, response, false, Propagated(MiddlewareValidationParameters(config).error))
    ensures var e := InvokeSpec(config, writeToken, validate, users, request, response, now, jti, random);
      MiddlewareValidationParameters(config).Success? ==>
        var v := validate(token, MiddlewareValidationParameters(config).value);
        && (v.Rejected? && v.error == LifetimeExpired ==>
              e == RefreshTokenSpec(config, writeToken, users, request, response, now, jti, random))
        && (v.Rejected? && v.error != LifetimeExpired ==>
              e == Effect(users, response, false, Propagated(SecurityTokenException(v.error, v.message))))
        && (v.Faulted? ==> e == Effect(users, response, false, Propagated(v.exception)))
  {
  }

  /** Answering with a refresh never hands the request on. */
  lemma RefreshNeverPassesOn(config: Configuration, writeToken: TokenWriter, users: seq<ApplicationUser>,
                             request: Request, response: Response, now: int, jti: string, random: seq<Base64.byte>)
    requires |random| == RefreshTokenBytes
    ensures !RefreshTokenSpec(config, writeToken, users, request, response, now, jti, random).callsNext
  {
  }

  /** A missing or empty RefreshToken header is answered 401 "Refresh token is required.", and nothing is stored. */
  lemma MissingRefreshTokenRejected(config: Configuration, writeToken: TokenWriter, users: seq<ApplicationUser>,
                                    request: Request, response: Response, now: int, jti: string, random: seq<Base64.byte>)
    requires |random| == RefreshTokenBytes
    requires request.refreshToken == [] || request.refreshToken[0] == ""
    ensures var e := RefreshTokenSpec(config, writeToken, users, request, response, now, jti, random);
      && e.users == users && e.outcome == Completed
      && e.response.statusCode == Status401Unauthorized
      && e.response.body == response.body + [Text(RefreshTokenRequired)]
  {
  }

  /**
   * A refresh token no user holds, or whose holder's expiry lies before
   * `now`, is answered 401 "Invalid or expired refresh token.", and nothing
   * is stored. An expiry equal to `now` still counts as valid.
   */
  lemma UnknownOrExpiredRefreshTokenRejected(config: Configuration, writeToken: TokenWriter, users: seq<ApplicationUser>,
                                             request: Request, response: Response, now: int, jti: string,
                                             random: seq<Base64.byte>, t: string)
    requires |random| == RefreshTokenBytes
    requires FirstOrDefault(request.refreshToken) == Some(t) && t != ""
    ensures var e := RefreshTokenSpec(config, writeToken, users, request, response, now, jti, random);
      var found := FindByRefreshToken(users, t);
      (found.None? || users[found.value].refreshTokenExpirationDateTime < now) <==>
        (e.users == users && e.outcome == Completed
         && e.response == Unauthorized(response, InvalidOrExpiredRefreshToken))
  {
    var e := RefreshTokenSpec(config, writeToken, users, request, response, now, jti, random);
    var found := FindByRefreshToken(users, t);
    if found.Some? && users[found.value].refreshTokenExpirationDateTime >= now {
      var i := found.value;
      match CreateJwtToken(config, writeToken, Some(users[i]), now, jti, random)
      case Failure(_) =>
      case Success(auth) =>
        assert e.response.body[|response.body|] == AuthenticationJson(auth);
    }
  }

  /**
   * A successful refresh rotates the refresh token of the first user holding
   * the presented one, and only that: the user keeps its identity, every other
   * user is unchanged, and the new token pair is written as JSON.
   */
  lemma RefreshRotatesHolder(config: Configuration, writeToken: TokenWriter, users: seq<ApplicationUser>,
                             request: Request, response: Response, now: int, jti: string,
                             random: seq<Base64.byte>, t: string, i: nat)
    requires |random| == RefreshTokenBytes
    requires FirstOrDefault(request.refreshToken) == Some(t) && t != ""
    requires FindByRefreshToken(users, t) == Some(i)
    requires users[i].refreshTokenExpirationDateTime >= now
    requires CreateJwtToken(config, writeToken, Some(users[i]), now, jti, random).Success?
    ensures var auth := CreateJwtToken(config, writeToken, Some(users[i]), now, jti, random).value;
      var e := RefreshTokenSpec(config, writeToken, users, request, response, now, jti, random);
      && e.outcome == Completed && !e.callsNext
      && |e.users| == |users|
      && (forall j :: 0 <= j < |users| && j != i ==> e.users[j] == users[j])
      && e.users[i].id == users[i].id && e.users[i].email == users[i].email
      && e.users[i].userName == users[i].userName && e.users[i].personName == users[i].personName
      && e.users[i].phoneNumber == users[i].phoneNumber
      && e.users[i] == Rotated(users[i], auth)
      && e.users[i].refreshToken == Some(auth.refreshToken)
      && e.users[i].refreshTokenExpirationDateTime == auth.refreshTokenExpirationDateTime
      && e.response.statusCode == response.statusCode
      && e.response.contentType == Some(JsonContentTypeWithCharset)
      && e.response.body == response.body + [AuthenticationJson(auth)]
  {
  }

  /**
   * The rotated token replaces the presented one: when user i alone held `t`,
   * no user holds it after the refresh (the new token decodes to the fresh
   * random bytes, which `t` does not), so presenting `t` again is answered 401
   * and changes nothing.
   */
  lemma {:induction false} RotationRevokesPresentedToken(config: Configuration, writeToken: TokenWriter,
                                      users: seq<ApplicationUser>, request: Request, response: Response,
                                      now: int, jti: string, random: seq<Base64.byte>, t: string, i: nat,
                                      response2: Response, now2: int, jti2: string, random2: seq<Base64.byte>)
    requires |random| == RefreshTokenBytes && |random2| == RefreshTokenBytes
    requires FirstOrDefault(request.refreshToken) == Some(t) && t != ""
    requires HeldOnlyBy(users, t, i)
    requires Base64.Decode(t) != Some(random)
    requires users[i].refreshTokenExpirationDateTime >= now
    requires CreateJwtToken(config, writeToken, Some(users[i]), now, jti, random).Success?
    ensures var e := RefreshTokenSpec(config, writeToken, users, request, response, now, jti, random);
      && FindByRefreshToken(e.users, t).None?
      && RefreshTokenSpec(config, writeToken, e.users, request, response2, now2, jti2, random2)
         == Effect(e.users, Unauthorized(response2, InvalidOrExpiredRefreshToken), false, Completed)
  {
    var auth := CreateJwtToken(config, writeToken, Some(users[i]), now, jti, random).value;
    assert FindByRefreshToken(users, t) == Some(i);
    RefreshRotatesHolder(config, writeToken, users, request, response, now, jti, random, t, i);
    var e := RefreshTokenSpec(config, writeToken, users, request, response, now, jti, random);
    assert auth.refreshToken != t;
    assert forall j :: 0 <= j < |e.users| ==> e.users[j].refreshToken != Some(t);
  }

  /**
   * After a refresh the new token finds its holder: unless another user
   * already held the freshly generated token, presenting it finds user i.
   */
  lemma RotatedTokenFindsHolder(config: Configuration, writeToken: TokenWriter, users: seq<ApplicationUser>,
                                request: Request, response: Response, now: int, jti: string,
                                random: seq<Base64.byte>, t: string, i: nat)
    requires |random| == RefreshTokenBytes
    requires FirstOrDefault(request.refreshToken) == Some(t) && t != ""
    requires FindByRefreshToken(users, t) == Some(i)
    requires users[i].refreshTokenExpirationDateTime >= now
    requires CreateJwtToken(config, writeToken, Some(users[i]), now, jti, random).Success?
    requires var auth := CreateJwtToken(config, writeToken, Some(users[i]), now, jti, random).value;
      forall j :: 0 <= j < |users| && j != i ==> users[j].refreshToken != Some(auth.refreshToken)
    ensures var auth := CreateJwtToken(config, writeToken, Some(users[i]), now, jti, random).value;
      var e := RefreshTokenSpec(config, writeToken, users, request, response, now, jti, random);
      FindByRefreshToken(e.users, auth.refreshToken) == Some(i) && HeldOnlyBy(e.users, auth.refreshToken, i)
  {
    RefreshRotatesHolder(config, writeToken, users, request, response, now, jti, random, t, i);
  }

  // ---- the configuration keys the middleware reads ----

  /** "JWT:Key" and "Jwt:Key" name one configuration entry, as do the two audience keys. */
  lemma MiddlewareReadsServiceKeys(config: Configuration)
    ensures config.Get(MiddlewareKeyKey) == config.Get(JwtKey)
    ensures config.Get(MiddlewareAudienceKey) == config.Get(JwtAudience)
  {
    assert EqualsIgnoreCase(MiddlewareKeyKey, JwtKey) by {
      assert forall k :: 0 <= k < |JwtKey| ==> ToUpperAscii(MiddlewareKeyKey[k]) == ToUpperAscii(JwtKey[k]);
    }
    GetIgnoresCase(config, MiddlewareKeyKey, JwtKey);
    assert EqualsIgnoreCase(MiddlewareAudienceKey, JwtAudience) by {
      assert forall k :: 0 <= k < |JwtAudience| ==> ToUpperAscii(MiddlewareAudienceKey[k]) == ToUpperAscii(JwtAudience[k]);
    }
    GetIgnoresCase(config, MiddlewareAudienceKey, JwtAudience);
  }

  /**
   * The middleware never reads the token service's issuer: no spelling of
   * "Jwt:Issuer" matches any key the middleware reads, so an entry under it,
   * whatever the rest of the configuration, leaves the middleware's
   * validation parameters as they were.
   */
  lemma MiddlewareIgnoresServiceIssuer(config: Configuration, issuer: string)
    ensures !EqualsIgnoreCase(JwtIssuer, MiddlewareIssuerKey)
    ensures MiddlewareValidationParameters(Configuration([(JwtIssuer, issuer)] + config.entries))
         == MiddlewareValidationParameters(config)
  {
    assert !EqualsIgnoreCase(JwtIssuer, MiddlewareIssuerKey) by {
      assert ToUpperAscii(JwtIssuer[8]) != ToUpperAscii(MiddlewareIssuerKey[8]);
    }
    assert !EqualsIgnoreCase(JwtIssuer, MiddlewareKeyKey) by { assert |JwtIssuer| != |MiddlewareKeyKey|; }
    assert !EqualsIgnoreCase(JwtIssuer, MiddlewareAudienceKey) by { assert |JwtIssuer| != |MiddlewareAudienceKey|; }
    GetSkipsOtherKey(config, (JwtIssuer, issuer), MiddlewareIssuerKey);
    GetSkipsOtherKey(config, (JwtIssuer, issuer), MiddlewareKeyKey);
    GetSkipsOtherKey(config, (JwtIssuer, issuer), MiddlewareAudienceKey);
  }

  /**
   * An example of MiddlewareIgnoresServiceIssuer. The middleware reads the issuer under "JWT:Issure", which no spelling of
   * "Jwt:Issuer" matches: with the issuer configured only under the token
   * service's key, the service signs tokens with that issuer while the
   * middleware validates them against no issuer at all.
   */
  lemma IssuerKeyMismatch(key: string, issuer: string)
    requires key != ""
    ensures var config := Configuration([(JwtKey, key), (JwtIssuer, issuer)]);
      && ServiceValidationParameters(config).validIssuer == Some(issuer)
      && MiddlewareValidationParameters(config).Success?
      && MiddlewareValidationParameters(config).value.validIssuer == None
  {
    var config := Configuration([(JwtKey, key), (JwtIssuer, issuer)]);
    assert !EqualsIgnoreCase(JwtKey, JwtIssuer) by { assert |JwtKey| != |JwtIssuer|; }
    assert EqualsIgnoreCase(config.entries[1].0, JwtIssuer);
    assert !EqualsIgnoreCase(config.entries[0].0, JwtIssuer);
    assert config.KeyIndex(JwtIssuer) == Some(1);
    MiddlewareReadsServiceKeys(config);
    assert EqualsIgnoreCase(JwtKey, JwtKey);
    assert config.Get(JwtKey) == Some(key);
    assert !EqualsIgnoreCase(JwtIssuer, MiddlewareIssuerKey) by {
      assert ToUpperAscii(JwtIssuer[8]) != ToUpperAscii(MiddlewareIssuerKey[8]);
    }
    assert !EqualsIgnoreCase(JwtKey, MiddlewareIssuerKey) by { assert |JwtKey| != |MiddlewareIssuerKey|; }
    assert config.Get(MiddlewareIssuerKey) == None;
  }

  class JwtRefreshMiddleware {
    const configuration: Configuration
    /** The serialiser of the injected token service. */
    const writeToken: TokenWriter
    /** The users table of the injected ApplicationDbContext. */
    const db: UserStore

    constructor (configuration: Configuration, writeToken: TokenWriter, db: UserStore)
      ensures this.configuration == configuration && this.writeToken == writeToken && this.db == db
    {
      this.configuration := configuration;
      this.writeToken := writeToken;
      this.db := db;
    }

    method Invoke(http: HttpContext, validate: TokenValidator, now: int, jti: string, random: seq<Base64.byte>)
      returns (outcome: PipelineOutcome)
      requires |random| == RefreshTokenBytes
      modifies db, http
      ensures var e := InvokeSpec(configuration, writeToken, validate, old(db.users), http.request, old(http.response), now, jti, random);
        db.users == e.users && http.response == e.response
      ensures var e := InvokeSpec(configuration, writeToken, validate, old(db.users), http.request, old(http.response), now, jti, random);
        outcome == e.outcome && http.nextCalled == (old(http.nextCalled) || e.callsNext)
    {
      var bearer := BearerToken(FirstOrDefault(http.request.authorization));
      if bearer.Some? {
        var token := bearer.value;
        var parameters := MiddlewareValidationParameters(configuration);
        if parameters.Failure? {
          return Propagated(parameters.error);
        }
        match validate(token, parameters.value) {
          case Rejected(LifetimeExpired, _) =>
            outcome := RefreshTokenAsync(http, now, jti, random);
            return;
          case Rejected(error, message) =>
            return Propagated(SecurityTokenException(error, message));
          case Faulted(e) =>
            return Propagated(e);
          case Validated(_) =>
        }
      }
      http.nextCalled := true;
      outcome := Completed;
    }

    method RefreshTokenAsync(http: HttpContext, now: int, jti: string, random: seq<Base64.byte>)
      returns (outcome: PipelineOutcome)
      requires |random| == RefreshTokenBytes
      modifies db, http
      ensures var e := RefreshTokenSpec(configuration, writeToken, old(db.users), http.request, old(http.response), now, jti, random);
        && db.users == e.users && http.response == e.response && outcome == e.outcome
        && http.nextCalled == old(http.nextCalled)
    {
      var refreshToken := FirstOrDefault(http.request.refreshToken);
      if refreshToken.None? || refreshToken.value == "" {
        http.response := http.response.(statusCode := Status401Unauthorized);
        http.response := WriteText(http.response, RefreshTokenRequired);
        return Completed;
      }
      var found := FindByRefreshToken(db.users, refreshToken.value);
      if found.None? || db.users[found.value].refreshTokenExpirationDateTime < now {
        http.response := http.response.(statusCode := Status401Unauthorized);
        http.response := WriteText(http.response, InvalidOrExpiredRefreshToken);
        return Completed;
      }
      var i := found.value;
      var created := CreateJwtToken(configuration, writeToken, Some(db.users[i]), now, jti, random);
      if created.Failure? {
        return Propagated(created.error);
      }
      var auth := created.value;
      var user := db.users[i];
      user := user.(refreshToken := Some(auth.refreshToken));
      user := user.(refreshTokenExpirationDateTime := auth.refreshTokenExpirationDateTime);
      assert user == Rotated(db.users[i], auth);
      db.users := db.users[i := user];  // SaveChangesAsync
      http.response := http.response.(contentType := Some(JsonContentType));
      http.response := WriteJson(http.response, auth);
      outcome := Completed;
    }
  }
}
