/**
 * The user records of ASP.NET Core Identity that the core reads and writes,
 * and the store both the account controller (through UserManager) and the
 * refresh middleware (through ApplicationDbContext.Users) work on.
 */
module Identity {
  import opened Wrappers
  import opened Text
  import Seqs

  /** DateTime.MinValue, in seconds since the Unix epoch: the expiry of a user never issued a refresh token. */
  const DateTimeMinValue: int := -62135596800

  /** DateTime.MaxValue, 9999-12-31 23:59:59 UTC, in whole seconds since the Unix epoch. */
  const DateTimeMaxValue: int := 253402300799

  datatype ApplicationUser = ApplicationUser(
    id: string,
    userName: string,
    email: string,
    phoneNumber: string,
    personName: string,
    refreshToken: Option<string>,
    refreshTokenExpirationDateTime: int)

  /** The rows of the users table, in the order the database returns them. */
  class UserStore {
    var users: seq<ApplicationUser>

    constructor (users: seq<ApplicationUser>)
      ensures this.users == users
    {
      this.users := users;
    }
  }

  /** Users.FirstOrDefaultAsync(u => u.RefreshToken == token): the first user holding `token`. */
  function FindByRefreshToken(users: seq<ApplicationUser>, token: string): (r: Option<nat>)
    ensures r.Some? ==> r.value < |users| && users[r.value].refreshToken == Some(token)
    ensures r.Some? ==> forall j :: 0 <= j < r.value ==> users[j].refreshToken != Some(token)
    ensures r.None? <==> forall j :: 0 <= j < |users| ==> users[j].refreshToken != Some(token)
  {
    Seqs.FirstIndex(users, (u: ApplicationUser) => u.refreshToken == Some(token))
  }

  /**
   * UserManager.FindByEmailAsync(email): the first user whose email matches
   * `email` once both are normalised to upper case.
   */
  function FindByEmail(users: seq<ApplicationUser>, email: string): (r: Option<nat>)
    ensures r.Some? ==> r.value < |users| && EqualsIgnoreCase(users[r.value].email, email)
    ensures r.Some? ==> forall j :: 0 <= j < r.value ==> !EqualsIgnoreCase(users[j].email, email)
    ensures r.None? <==> forall j :: 0 <= j < |users| ==> !EqualsIgnoreCase(users[j].email, email)
  {
    Seqs.FirstIndex(users, (u: ApplicationUser) => EqualsIgnoreCase(u.email, email))
  }

  /** Whether `token` is held by user i and by no other user. */
  predicate HeldOnlyBy(users: seq<ApplicationUser>, token: string, i: nat) {
    i < |users| && users[i].refreshToken == Some(token)
    && forall j :: 0 <= j < |users| && j != i ==> users[j].refreshToken != Some(token)
  }
}
