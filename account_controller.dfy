/**
 * AccountController: register, log in and check an email against the user
 * store. Creating a user and checking a password are ASP.NET Core Identity
 * code and enter as parameters; the token service is JwtService.
 *
 * RegisterSpec, LoginSpec and GenerateJwtTokenSpec state what one request
 * does to the store and what it answers; the methods of the class do it in
 * place and are proved to agree with them; the lemmas state the properties.
 */
module Account {
  import opened Wrappers
  import opened Text
  import Base64
  import opened Exceptions
  import opened AppConfiguration
  import opened Identity
  import opened Dto
  import opened Http
  import opened JwtService
  import RefreshMiddleware

  /** The separator GetModelErrors and GetIdentityErrors put between messages. */
  const ErrorSeparator: string := " | "
  const InvalidCredentials: string := "Invalid email or password"
  const UserNotFound: string := "User not found."

  /** ModelState: the validation error messages of each bound value, in binding order. */
  datatype ModelState = ModelState(values: seq<seq<string>>)

  /** ModelState.IsValid: no bound value has an error. */
  predicate IsValid(modelState: ModelState) {
    forall k :: 0 <= k < |modelState.values| ==> modelState.values[k] == []
  }

  /** ModelState.Values.SelectMany(v => v.Errors): every error message, value after value. */
  function AllErrors(values: seq<seq<string>>): (r: seq<string>)
    ensures |r| == 0 <==> forall k :: 0 <= k < |values| ==> values[k] == []
  {
    if values == [] then [] else values[0] + AllErrors(values[1..])
  }

  /**
   * SelectMany keeps order and repetition: the messages of the values in `a`
   * come first, then those of the values in `b`.
   */
  lemma {:induction false} AllErrorsAppend(a: seq<seq<string>>, b: seq<seq<string>>)
    ensures AllErrors(a + b) == AllErrors(a) + AllErrors(b)
  {
    if a == [] {
      assert a + b == b;
    } else {
      assert (a + b)[1..] == a[1..] + b;
      AllErrorsAppend(a[1..], b);
    }
  }

  /** The messages of a single value are its errors, as they are. */
  lemma AllErrorsOfOne(v: seq<string>)
    ensures AllErrors([v]) == v
  {
    assert [v][1..] == [];
  }

  /**
   * Message i of value k stands at position i after the messages of the
   * values before it.
   */
  lemma AllErrorsPosition(values: seq<seq<string>>, k: nat, i: nat)
    requires k < |values| && i < |values[k]|
    ensures |AllErrors(values[..k])| + i < |AllErrors(values)|
    ensures AllErrors(values)[|AllErrors(values[..k])| + i] == values[k][i]
  {
    assert values == values[..k] + ([values[k]] + values[k + 1..]);
    AllErrorsAppend(values[..k], [values[k]] + values[k + 1..]);
    AllErrorsAppend([values[k]], values[k + 1..]);
    AllErrorsOfOne(values[k]);
  }

  /** Every error message of every value is among AllErrors. */
  lemma {:induction false} AllErrorsHoldsEach(values: seq<seq<string>>, k: nat, i: nat)
    requires k < |values| && i < |values[k]|
    ensures values[k][i] in AllErrors(values)
  {
    if k > 0 {
      AllErrorsHoldsEach(values[1..], k - 1, i);
      assert values[1..][k - 1] == values[k];
    }
  }

  /** AllErrors holds nothing but the values' error messages. */
  lemma {:induction false} AllErrorsHoldsOnlyThose(values: seq<seq<string>>, m: string)
    requires m in AllErrors(values)
    ensures exists k :: 0 <= k < |values| && m in values[k]
  {
    if m !in values[0] {
      AllErrorsHoldsOnlyThose(values[1..], m);
      var k :| 0 <= k < |values[1..]| && m in values[1..][k];
      assert values[k + 1] == values[1..][k];
    }
  }

  /** GetModelErrors: the model's error messages joined by " | ". */
  function GetModelErrors(modelState: ModelState): (r: string)
    ensures IsValid(modelState) ==> r == ""
    ensures |AllErrors(modelState.values)| == 1 ==> r == AllErrors(modelState.values)[0]
  {
    Join(ErrorSeparator, AllErrors(modelState.values))
  }

  /**
   * GetModelErrors lists every message: message j of AllErrors stands at its
   * offset in the joined text, followed by " | " unless it is the last.
   */
  lemma {:induction false} GetModelErrorsParts(modelState: ModelState, j: nat)
    requires j < |AllErrors(modelState.values)|
    ensures var r, parts := GetModelErrors(modelState), AllErrors(modelState.values);
      var o := PartOffset(ErrorSeparator, parts, j);
      o + |parts[j]| <= |r| && r[o..o + |parts[j]|] == parts[j]
    ensures var r, parts := GetModelErrors(modelState), AllErrors(modelState.values);
      var e := PartOffset(ErrorSeparator, parts, j) + |parts[j]|;
      j + 1 < |parts| ==> e + |ErrorSeparator| <= |r| && r[e..e + |ErrorSeparator|] == ErrorSeparator
  {
    JoinParts(ErrorSeparator, AllErrors(modelState.values), j);
  }

  /** IdentityError: the code and description of one reason Identity refused an operation. */
  datatype IdentityError = IdentityError(code: string, description: string)

  /** IdentityResult: success, or failure with its errors. */
  datatype IdentityResult = Succeeded | Failed(errors: seq<IdentityError>)

  /** result.Errors.Select(e => e.Description) */
  function Descriptions(errors: seq<IdentityError>): (r: seq<string>)
    ensures |r| == |errors|
    ensures forall k :: 0 <= k < |errors| ==> r[k] == errors[k].description
  {
    if errors == [] then [] else [errors[0].description] + Descriptions(errors[1..])
  }

  /** GetIdentityErrors: the descriptions of a failed result's errors joined by " | ". */
  function GetIdentityErrors(result: IdentityResult): (r: string)
    ensures result.Succeeded? || result.errors == [] ==> r == ""
    ensures result.Failed? && |result.errors| == 1 ==> r == result.errors[0].description
  {
    Join(ErrorSeparator, if result.Failed? then Descriptions(result.errors) else [])
  }

  /**
   * GetIdentityErrors lists every description: that of error j stands at its
   * offset in the joined text, followed by " | " unless it is the last.
   */
  lemma {:induction false} GetIdentityErrorsParts(errors: seq<IdentityError>, j: nat)
    requires j < |errors|
    ensures var r, parts := GetIdentityErrors(Failed(errors)), Descriptions(errors);
      var o := PartOffset(ErrorSeparator, parts, j);
      o + |parts[j]| <= |r| && r[o..o + |parts[j]|] == parts[j]
    ensures var r, parts := GetIdentityErrors(Failed(errors)), Descriptions(errors);
      var e := PartOffset(ErrorSeparator, parts, j) + |parts[j]|;
      j + 1 < |parts| ==> e + |ErrorSeparator| <= |r| && r[e..e + |ErrorSeparator|] == ErrorSeparator
  {
    JoinParts(ErrorSeparator, Descriptions(errors), j);
  }

  /** The results the actions return. */
  datatype ActionResult =
    | Ok(auth: AuthenticationResponse)   // Ok(authenticationResponse)
    | OkFlag(flag: bool)                 // Ok(user == null)
    | BadRequest(message: string)
    | Unauthorized(message: string)
    | NotFound(message: string)

  /** The status code each result is answered with. */
  function StatusCode(result: ActionResult): int {
    match result
    case Ok(_) => 200
    case OkFlag(_) => 200
    case BadRequest(_) => 400
    case Unauthorized(_) => 401
    case NotFound(_) => 404
  }

  /**
   * UserManager.CreateAsync(user, password) on the given store: whether
   * Identity accepts the user (password rules, unique user name, ...).
   */
  type UserCreator = (seq<ApplicationUser>, ApplicationUser, string) -> IdentityResult

  /** SignInManager.PasswordSignInAsync(email, password, false, false).Succeeded on the given store. */
  type CredentialCheck = (seq<ApplicationUser>, string, string) -> bool

  /** The store after a request, and what the action returned or threw. */
  datatype Outcome = Outcome(users: seq<ApplicationUser>, result: Result<ActionResult, Exception>)

  /**
   * The user PostRegister builds: user name and email are the email given,
   * phone number and person name are copied, the id is the fresh Guid, and no
   * refresh token has been issued yet.
   */
  function NewUser(dto: RegisterDto, id: string): (u: ApplicationUser)
    ensures u.id == id && u.userName == dto.email && u.email == dto.email
    ensures u.phoneNumber == dto.phoneNumber && u.personName == dto.personName
    ensures u.refreshToken.None? && u.refreshTokenExpirationDateTime == DateTimeMinValue
  {
    ApplicationUser(id, dto.email, dto.email, dto.phoneNumber, dto.personName, None, DateTimeMinValue)
  }

  /** GenerateJwtToken(user) for user i of the store: issue the tokens and store the refresh token in the user. */
  function GenerateJwtTokenSpec(config: Configuration, writeToken: TokenWriter, users: seq<ApplicationUser>, i: nat,
                                now: int, jti: string, random: seq<Base64.byte>)
    : (seq<ApplicationUser>, Result<AuthenticationResponse, Exception>)
    requires i < |users| && |random| == RefreshTokenBytes
  {
    match CreateJwtToken(config, writeToken, Some(users[i]), now, jti, random)
    case Failure(e) => (users, Failure(e))
    case Success(auth) => (users[i := Rotated(users[i], auth)], Success(auth))
  }

  /** PostRegister(registerDTO), with `newId` the Guid the new user receives. */
  function RegisterSpec(config: Configuration, writeToken: TokenWriter, create: UserCreator, users: seq<ApplicationUser>,
                        modelState: ModelState, dto: RegisterDto, newId: string,
                        now: int, jti: string, random: seq<Base64.byte>): Outcome
    requires |random| == RefreshTokenBytes
  {
    if !IsValid(modelState) then Outcome(users, Success(BadRequest(GetModelErrors(modelState))))
    else
      var user := NewUser(dto, newId);
      var created := create(users, user, dto.password);
      if created.Failed? then Outcome(users, Success(BadRequest(GetIdentityErrors(created))))
      else
        var (users', issued) := GenerateJwtTokenSpec(config, writeToken, users + [user], |users|, now, jti, random);
        match issued
        case Failure(e) => Outcome(users', Failure(e))
        case Success(auth) => Outcome(users', Success(Ok(auth)))
  }

  /** PostLogin(loginDTO). */
  function LoginSpec(config: Configuration, writeToken: TokenWriter, passwordSignIn: CredentialCheck,
                     users: seq<ApplicationUser>, modelState: ModelState, dto: LoginDto,
                     now: int, jti: string, random: seq<Base64.byte>): Outcome
    requires |random| == RefreshTokenBytes
  {
    if !IsValid(modelState) then Outcome(users, Success(BadRequest(GetModelErrors(modelState))))
    else if !passwordSignIn(users, dto.email, dto.password) then Outcome(users, Success(Unauthorized(InvalidCredentials)))
    else
      match FindByEmail(users, dto.email)
      case None => Outcome(users, Success(NotFound(UserNotFound)))
      case Some(i) =>
        var (users', issued) := GenerateJwtTokenSpec(config, writeToken, users, i, now, jti, random);
        match issued
        case Failure(e) => Outcome(users', Failure(e))
        case Success(auth) => Outcome(users', Success(Ok(auth)))
  }

  // ---- properties of the actions ----

  /**
   * An invalid model state is answered BadRequest with its error messages
   * joined by " | ", by register and login alike, before anything is read or
   * stored; there is at least one message to report.
   */
  lemma InvalidModelStateRejected(config: Configuration, writeToken: TokenWriter, create: UserCreator,
                                  passwordSignIn: CredentialCheck, users: seq<ApplicationUser>, modelState: ModelState,
                                  register: RegisterDto, login: LoginDto, newId: string,
                                  now: int, jti: string, random: seq<Base64.byte>)
    requires |random| == RefreshTokenBytes
    requires !IsValid(modelState)
    ensures RegisterSpec(config, writeToken, create, users, modelState, register, newId, now, jti, random)
         == Outcome(users, Success(BadRequest(Join(ErrorSeparator, AllErrors(modelState.values)))))
    ensures LoginSpec(config, writeToken, passwordSignIn, users, modelState, login, now, jti, random)
         == Outcome(users, Success(BadRequest(Join(ErrorSeparator, AllErrors(modelState.values)))))
    ensures AllErrors(modelState.values) != []
  {
  }

  /**
   * When Identity refuses the new user, register answers BadRequest with the
   * error descriptions joined by " | ", and the store is unchanged: no user
   * is added and no token is issued.
   */
  lemma RegisterCreateFailure(config: Configuration, writeToken: TokenWriter, create: UserCreator,
                              users: seq<ApplicationUser>, modelState: ModelState, dto: RegisterDto, newId: string,
                              now: int, jti: string, random: seq<Base64.byte>, errors: seq<IdentityError>)
    requires |random| == RefreshTokenBytes
    requires IsValid(modelState)
    requires create(users, NewUser(dto, newId), dto.password) == Failed(errors)
    ensures var o := RegisterSpec(config, writeToken, create, users, modelState, dto, newId, now, jti, random);
      && o.users == users
      && o.result == Success(BadRequest(Join(ErrorSeparator, Descriptions(errors))))
  {
  }

  /**
   * A successful register appends one user built from the request (user name
   * and email are the email given; phone number and person name copied) and
   * stores in it the refresh token and expiry the response carries.
   */
  lemma RegisterSuccess(config: Configuration, writeToken: TokenWriter, create: UserCreator,
                        users: seq<ApplicationUser>, modelState: ModelState, dto: RegisterDto, newId: string,
                        now: int, jti: string, random: seq<Base64.byte>, auth: AuthenticationResponse)
    requires |random| == RefreshTokenBytes
    requires RegisterSpec(config, writeToken, create, users, modelState, dto, newId, now, jti, random).result == Success(Ok(auth))
    ensures IsValid(modelState) && create(users, NewUser(dto, newId), dto.password) == Succeeded
    ensures var o := RegisterSpec(config, writeToken, create, users, modelState, dto, newId, now, jti, random);
      && |o.users| == |users| + 1 && o.users[..|users|] == users
      && o.users[|users|].id == newId
      && o.users[|users|].userName == dto.email && o.users[|users|].email == dto.email
      && o.users[|users|].phoneNumber == dto.phoneNumber && o.users[|users|].personName == dto.personName
      && o.users[|users|].refreshToken == Some(auth.refreshToken)
      && o.users[|users|].refreshTokenExpirationDateTime == auth.refreshTokenExpirationDateTime
    ensures auth.email == dto.email && auth.personName == dto.personName
  {
    var user := NewUser(dto, newId);
    assert CreateJwtToken(config, writeToken, Some((users + [user])[|users|]), now, jti, random) == Success(auth);
    var o := RegisterSpec(config, writeToken, create, users, modelState, dto, newId, now, jti, random);
    assert o.users == (users + [user])[|users| := Rotated(user, auth)];
    assert o.users[..|users|] == users;
  }

  /** Wrong credentials are answered 401 "Invalid email or password", and the store is unchanged. */
  lemma LoginCredentialFailure(config: Configuration, writeToken: TokenWriter, passwordSignIn: CredentialCheck,
                               users: seq<ApplicationUser>, modelState: ModelState, dto: LoginDto,
                               now: int, jti: string, random: seq<Base64.byte>)
    requires |random| == RefreshTokenBytes
    requires IsValid(modelState) && !passwordSignIn(users, dto.email, dto.password)
    ensures LoginSpec(config, writeToken, passwordSignIn, users, modelState, dto, now, jti, random)
         == Outcome(users, Success(Unauthorized(InvalidCredentials)))
  {
  }

  /** Accepted credentials with no user of that email are answered NotFound("User not found."). */
  lemma LoginUserNotFound(config: Configuration, writeToken: TokenWriter, passwordSignIn: CredentialCheck,
                          users: seq<ApplicationUser>, modelState: ModelState, dto: LoginDto,
                          now: int, jti: string, random: seq<Base64.byte>)
    requires |random| == RefreshTokenBytes
    requires IsValid(modelState) && passwordSignIn(users, dto.email, dto.password)
    requires forall j :: 0 <= j < |users| ==> !EqualsIgnoreCase(users[j].email, dto.email)
    ensures LoginSpec(config, writeToken, passwordSignIn, users, modelState, dto, now, jti, random)
         == Outcome(users, Success(NotFound(UserNotFound)))
  {
  }

  /**
   * A successful login issued the tokens of the user with the given email,
   * and that user, and no other, now holds the returned refresh token and
   * its expiry.
   */
  lemma LoginStoresIssuedToken(config: Configuration, writeToken: TokenWriter, passwordSignIn: CredentialCheck,
                               users: seq<ApplicationUser>, modelState: ModelState, dto: LoginDto,
                               now: int, jti: string, random: seq<Base64.byte>, auth: AuthenticationResponse)
    requires |random| == RefreshTokenBytes
    requires LoginSpec(config, writeToken, passwordSignIn, users, modelState, dto, now, jti, random).result == Success(Ok(auth))
    ensures IsValid(modelState) && passwordSignIn(users, dto.email, dto.password)
    ensures FindByEmail(users, dto.email).Some?
    ensures var i := FindByEmail(users, dto.email).value;
      var o := LoginSpec(config, writeToken, passwordSignIn, users, modelState, dto, now, jti, random);
      && CreateJwtToken(config, writeToken, Some(users[i]), now, jti, random) == Success(auth)
      && o.users == users[i := Rotated(users[i], auth)]
      && o.users[i].refreshToken == Some(auth.refreshToken)
      && o.users[i].refreshTokenExpirationDateTime == auth.refreshTokenExpirationDateTime
      && auth.email == users[i].email
  {
  }

  /**
   * The refresh token a login stores is the one the refresh middleware looks
   * up: presenting it before its expiry finds the user who logged in (when no
   * other user holds the same token) and rotates that user's token, or lets
   * the token service's exception escape.
   */
  lemma LoginThenRefresh(config: Configuration, writeToken: TokenWriter, passwordSignIn: CredentialCheck,
                         users: seq<ApplicationUser>, modelState: ModelState, dto: LoginDto,
                         now: int, jti: string, random: seq<Base64.byte>, auth: AuthenticationResponse,
                         request: Request, response: Response, now2: int, jti2: string, random2: seq<Base64.byte>)
    requires |random| == RefreshTokenBytes && |random2| == RefreshTokenBytes
    requires LoginSpec(config, writeToken, passwordSignIn, users, modelState, dto, now, jti, random).result == Success(Ok(auth))
    requires FindByEmail(users, dto.email).Some?
    requires var i := FindByEmail(users, dto.email).value;
      forall j :: 0 <= j < |users| && j != i ==> users[j].refreshToken != Some(auth.refreshToken)
    requires request.refreshToken == [auth.refreshToken]
    requires now2 <= auth.refreshTokenExpirationDateTime
    ensures var i := FindByEmail(users, dto.email).value;
      var stored := LoginSpec(config, writeToken, passwordSignIn, users, modelState, dto, now, jti, random).users;
      var e := RefreshMiddleware.RefreshTokenSpec(config, writeToken, stored, request, response, now2, jti2, random2);
      && FindByRefreshToken(stored, auth.refreshToken) == Some(i)
      && !e.callsNext
      && match CreateJwtToken(config, writeToken, Some(stored[i]), now2, jti2, random2)
         case Failure(ex) => e.users == stored && e.outcome == Propagated(ex)
         case Success(auth2) =>
           && e.users == stored[i := Rotated(stored[i], auth2)]
           && e.outcome == Completed
           && e.response.body == response.body + [AuthenticationJson(auth2)]
  {
    var i := FindByEmail(users, dto.email).value;
    LoginStoresIssuedToken(config, writeToken, passwordSignIn, users, modelState, dto, now, jti, random, auth);
    var stored := LoginSpec(config, writeToken, passwordSignIn, users, modelState, dto, now, jti, random).users;
    assert HeldOnlyBy(stored, auth.refreshToken, i);
    assert FindByRefreshToken(stored, auth.refreshToken) == Some(i);
    assert auth.refreshToken != "";
  }

  class AccountController {
    /** The store behind the injected UserManager. */
    const userManager: UserStore
    const configuration: Configuration
    /** The serialiser of the injected token service. */
    const writeToken: TokenWriter

    constructor (userManager: UserStore, configuration: Configuration, writeToken: TokenWriter)
      ensures this.userManager == userManager && this.configuration == configuration && this.writeToken == writeToken
    {
      this.userManager := userManager;
      this.configuration := configuration;
      this.writeToken := writeToken;
    }

    method PostRegister(modelState: ModelState, dto: RegisterDto, create: UserCreator, newId: string,
                        now: int, jti: string, random: seq<Base64.byte>)
      returns (result: Result<ActionResult, Exception>)
      requires |random| == RefreshTokenBytes
      modifies userManager
      ensures var o := RegisterSpec(configuration, writeToken, create, old(userManager.users), modelState, dto, newId, now, jti, random);
        userManager.users == o.users && result == o.result
    {
      if !IsValid(modelState) {
        return Success(BadRequest(GetModelErrors(modelState)));
      }
      var user := NewUser(dto, newId);
      var created := create(userManager.users, user, dto.password);
      if created.Failed? {
        return Success(BadRequest(GetIdentityErrors(created)));
      }
      userManager.users := userManager.users + [user];
      var issued := GenerateJwtToken(|userManager.users| - 1, now, jti, random);
      if issued.Failure? {
        return Failure(issued.error);
      }
      result := Success(Ok(issued.value));
    }

    method IsEmailAlreadyRegistered(email: string) returns (result: ActionResult)
      ensures result == OkFlag(FindByEmail(userManager.users, email).None?)
      ensures result.flag <==> forall j :: 0 <= j < |userManager.users| ==> !EqualsIgnoreCase(userManager.users[j].email, email)
    {
      var user := FindByEmail(userManager.users, email);
      result := OkFlag(user.None?);
    }

    method PostLogin(modelState: ModelState, dto: LoginDto, passwordSignIn: CredentialCheck,
                     now: int, jti: string, random: seq<Base64.byte>)
      returns (result: Result<ActionResult, Exception>)
      requires |random| == RefreshTokenBytes
      modifies userManager
      ensures var o := LoginSpec(configuration, writeToken, passwordSignIn, old(userManager.users), modelState, dto, now, jti, random);
        userManager.users == o.users && result == o.result
    {
      if !IsValid(modelState) {
        return Success(BadRequest(GetModelErrors(modelState)));
      }
      var signedIn := passwordSignIn(userManager.users, dto.email, dto.password);
      if !signedIn {
        return Success(Unauthorized(InvalidCredentials));
      }
      var user := FindByEmail(userManager.users, dto.email);
      if user.None? {
        return Success(NotFound(UserNotFound));
      }
      var issued := GenerateJwtToken(user.value, now, jti, random);
      if issued.Failure? {
        return Failure(issued.error);
      }
      result := Success(Ok(issued.value));
    }

    /** GenerateJwtToken(user) for user i: the tokens are issued, then stored in the user and saved. */
    method GenerateJwtToken(i: nat, now: int, jti: string, random: seq<Base64.byte>)
      returns (result: Result<AuthenticationResponse, Exception>)
      requires i < |userManager.users| && |random| == RefreshTokenBytes
      modifies userManager
      ensures (userManager.users, result) == GenerateJwtTokenSpec(configuration, writeToken, old(userManager.users), i, now, jti, random)
    {
      result := CreateJwtToken(configuration, writeToken, Some(userManager.users[i]), now, jti, random);
      if result.Success? {
        var auth := result.value;
        var user := userManager.users[i];
        user := user.(refreshToken := Some(auth.refreshToken));
        user := user.(refreshTokenExpirationDateTime := auth.refreshTokenExpirationDateTime);
        userManager.users := userManager.users[i := user];  // UpdateAsync
      }
    }
  }
}
