/**
 * Who is calling: password login against the `users` table, and resolution
 * of a bearer token back to a live user.
 */
module Auth {
  import opened Wrappers
  import Utf8
  import opened Schemas
  import opened Passwords
  import opened Tokens
  import opened Store

  /** What a request can fail with: an `HTTPException`, or the framework's 422 for an invalid body. */
  datatype ApiError =
    | HttpException(status: int, detail: string)
    | RequestValidationError(errors: seq<ValidationError>)

  /** The one error every failed token resolution raises. */
  const CredentialsError := HttpException(401, "Could not validate credentials")

  /** `authenticate_user`: the user with this username, when the password verifies against its hash. */
  function AuthenticateUser(users: seq<User>, username: string, password: string): (r: Option<User>)
    ensures r.Some? ==>
      r.value in users && r.value.username == username && VerifyPassword(password, r.value.hashedPassword)
    ensures UserByUsername(users, username).None? ==> r.None?
    ensures UniqueUsernames(users) ==>
      (r.Some? <==> exists u :: u in users && u.username == username && VerifyPassword(password, u.hashedPassword))
  {
    match UserByUsername(users, username)
    case None => None
    case Some(user) => if VerifyPassword(password, user.hashedPassword) then Some(user) else None
  }

  /**
   * `get_current_user`: a token resolves only when it decodes under the key,
   * carries a `sub` claim, and a user with that username exists; every other
   * case gives the same credentials error.
   */
  function GetCurrentUser(users: seq<User>, token: Token, now: int, key: string): (r: Result<User, ApiError>)
    ensures r.Failure? ==> r.error == CredentialsError
    ensures r.Success? <==>
      && Decode(token, key, now).Success?
      && Decode(token, key, now).value.sub.Some?
      && UserByUsername(users, Decode(token, key, now).value.sub.value).Some?
    ensures r.Success? ==> r.value in users && Decode(token, key, now).value.sub == Some(r.value.username)
  {
    match Decode(token, key, now)
    case Failure(_) => Failure(CredentialsError)
    case Success(claims) =>
      if claims.sub.None? then Failure(CredentialsError)
      else
        match UserByUsername(users, claims.sub.value)
        case None => Failure(CredentialsError)
        case Some(user) => Success(user)
  }

  /**
   * Right after registration, logging in with the registered password finds
   * the new user; with any other password it fails, unless the registered
   * password fills the 72-byte limit.
   */
  lemma AuthenticateAfterRegister(users: seq<User>, id: int, username: string, email: string,
                                  password: string, salt: Salt, attempt: string)
    requires UserByUsername(users, username).None?
    requires ValidatePassword(password).Success?
    ensures var user := User(id, username, email, GetPasswordHash(password, salt));
      && AuthenticateUser(users + [user], username, password) == Some(user)
      && (|Utf8.Encode(password)| < KeyBytes ==>
            (AuthenticateUser(users + [user], username, attempt).Some? <==> attempt == password))
  {
    var user := User(id, username, email, GetPasswordHash(password, salt));
    var r := UserByUsername(users + [user], username);
    assert user in users + [user];
    if |Utf8.Encode(password)| < KeyBytes {
      ShortPasswordVerifiesExactly(attempt, password, salt);
    }
  }
}
