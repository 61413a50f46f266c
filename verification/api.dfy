/**
 * The HTTP routes of the task service. Every task route first resolves the
 * caller from the bearer token, then validates the body, and scopes every
 * query to the caller's own rows. Clock (`now`) and the fresh bcrypt salt are
 * passed in.
 */
module Api {
  import opened Wrappers
  import opened Schemas
  import opened Passwords
  import opened Tokens
  import opened Store
  import opened Auth

  const SecretKey := "no need to add a key - only a test app"
  const AccessTokenExpireMinutes := 30

  const UsernameTaken := HttpException(400, "Username already registered")
  const EmailTaken := HttpException(400, "Email already registered")
  const IncorrectLogin := HttpException(401, "Incorrect username or password")
  const NotAuthenticated := HttpException(401, "Not authenticated")
  const TaskNotFound := HttpException(404, "Task not found")

  /** The body of a successful login. */
  datatype TokenResponse = TokenResponse(accessToken: Token, tokenType: string)

  /** Every task points at a registered user. */
  ghost predicate OwnersRegistered(users: seq<User>, tasks: seq<Task>)
  {
    forall t :: t in tasks ==> t.userId in UserIds(users)
  }

  /** The state every route keeps. */
  ghost predicate Consistent(db: Database)
    reads db
  {
    db.Valid() && OwnersRegistered(db.users, db.tasks)
  }

  /**
   * The caller of a protected route: `OAuth2PasswordBearer` refuses a request
   * without a bearer token, then `get_current_user` resolves the token.
   */
  function CurrentUser(users: seq<User>, authorization: Option<Token>, now: int): (r: Result<User, ApiError>)
    ensures authorization.None? ==> r == Failure(NotAuthenticated)
    ensures authorization.Some? ==> r == GetCurrentUser(users, authorization.value, now, SecretKey)
  {
    match authorization
    case None => Failure(NotAuthenticated)
    case Some(token) => GetCurrentUser(users, token, now, SecretKey)
  }

  /** The token `login` issues: subject = username, valid for 30 minutes, readable under the key. */
  function LoginToken(username: string, now: int): (t: Token)
    ensures t.Jws? && t.claims == Claims(Some(username), Some(now + AccessTokenExpireMinutes * 60))
    ensures Decode(t, SecretKey, now) == Success(t.claims)
  {
    CreateAccessToken(Claims(Some(username), None), Some(AccessTokenExpireMinutes * 60), now, SecretKey)
  }

  /**
   * A login token resolves to the user with its username for exactly as long
   * as it is unexpired and such a user exists.
   */
  lemma LoginTokenResolves(users: seq<User>, username: string, now: int, at: int)
    ensures var r := GetCurrentUser(users, LoginToken(username, now), at, SecretKey);
      && (r.Success? <==> at <= now + AccessTokenExpireMinutes * 60 && UserByUsername(users, username).Some?)
      && (r.Success? ==> r.value == UserByUsername(users, username).value)
  {
    CreatedTokenLifetime(Claims(Some(username), None), Some(AccessTokenExpireMinutes * 60), now, SecretKey, at);
  }

  /** `POST /register`: body validation first, then the username check, then the email check. */
  method Register(db: Database, body: UserForm, salt: Salt)
    returns (r: Result<UserView, ApiError>)
    requires Consistent(db)
    modifies db
    ensures Consistent(db) && db.tasks == old(db.tasks)
    ensures ParseUserCreate(body).Failure? ==>
      r == Failure(RequestValidationError(ParseUserCreate(body).error))
    ensures ParseUserCreate(body).Success? && UserByUsername(old(db.users), body.username.value).Some? ==>
      r == Failure(UsernameTaken)
    ensures ParseUserCreate(body).Success? && UserByUsername(old(db.users), body.username.value).None?
            && UserByEmail(old(db.users), body.email.value).Some? ==>
      r == Failure(EmailTaken)
    ensures r.Success? <==>
      && ParseUserCreate(body).Success?
      && UserByUsername(old(db.users), body.username.value).None?
      && UserByEmail(old(db.users), body.email.value).None?
    ensures r.Failure? ==> db.users == old(db.users)
    ensures r.Success? ==>
      var user := User(NextRowId(UserIds(old(db.users))), body.username.value, body.email.value,
                       GetPasswordHash(body.password.value, salt));
      && db.users == old(db.users) + [user]
      && r.value == PublicUser(user)
  {
    var form := ParseUserCreate(body);
    if form.Failure? {
      return Failure(RequestValidationError(form.error));
    }
    if UserByUsername(db.users, form.value.username).Some? {
      return Failure(UsernameTaken);
    }
    if UserByEmail(db.users, form.value.email).Some? {
      return Failure(EmailTaken);
    }
    ghost var before := db.users;
    var created := db.CreateUser(form.value, salt);
    assert created.Success?;
    assert forall t :: t in db.tasks ==> t.userId in UserIds(before) ==> t.userId in UserIds(db.users) by {
      assert forall i :: 0 <= i < |before| ==> UserIds(db.users)[i] == UserIds(before)[i];
    }
    r := Success(PublicUser(created.value));
  }

  /**
   * `POST /login`: the form is validated first; then a 30-minute bearer token
   * for a user whose password verifies.
   */
  method Login(db: Database, body: LoginForm, now: int)
    returns (r: Result<TokenResponse, ApiError>)
    ensures ParseLoginForm(body).Failure? ==>
      r == Failure(RequestValidationError(ParseLoginForm(body).error))
    ensures r.Success? <==>
      && ParseLoginForm(body).Success?
      && AuthenticateUser(db.users, body.username.value, body.password.value).Some?
    ensures ParseLoginForm(body).Success? && r.Failure? ==> r.error == IncorrectLogin
    ensures r.Success? ==> r.value == TokenResponse(LoginToken(body.username.value, now), "bearer")
  {
    var form := ParseLoginForm(body);
    if form.Failure? {
      return Failure(RequestValidationError(form.error));
    }
    var user := AuthenticateUser(db.users, form.value.username, form.value.password);
    if user.None? {
      return Failure(IncorrectLogin);
    }
    r := Success(TokenResponse(LoginToken(user.value.username, now), "bearer"));
  }

  /** `GET /users/me`: the caller's public view. */
  method ReadUsersMe(db: Database, authorization: Option<Token>, now: int)
    returns (r: Result<UserView, ApiError>)
    ensures r.Success? <==> CurrentUser(db.users, authorization, now).Success?
    ensures r.Success? ==> r.value == PublicUser(CurrentUser(db.users, authorization, now).value)
    ensures r.Failure? ==> r.error == CurrentUser(db.users, authorization, now).error
  {
    var current := CurrentUser(db.users, authorization, now);
    if current.Failure? {
      return Failure(current.error);
    }
    r := Success(PublicUser(current.value));
  }

  /**
   * `POST /tasks`: the new task is owned by the caller the token resolves to;
   * the body carries no owner.
   */
  method CreateTask(db: Database, authorization: Option<Token>, body: TaskForm, now: int)
    returns (r: Result<Task, ApiError>)
    requires Consistent(db)
    modifies db
    ensures Consistent(db) && db.users == old(db.users)
    ensures CurrentUser(db.users, authorization, now).Failure? ==>
      r == Failure(CurrentUser(db.users, authorization, now).error)
    ensures CurrentUser(db.users, authorization, now).Success? && ParseTaskCreate(body).Failure? ==>
      r == Failure(RequestValidationError(ParseTaskCreate(body).error))
    ensures r.Success? <==> CurrentUser(db.users, authorization, now).Success? && ParseTaskCreate(body).Success?
    ensures r.Failure? ==> db.tasks == old(db.tasks)
    ensures r.Success? ==>
      && CurrentUser(db.users, authorization, now).Success?
      && ParseTaskCreate(body).Success?
      && r.value == NewTask(NextRowId(TaskIds(old(db.tasks))), ParseTaskCreate(body).value,
                            CurrentUser(db.users, authorization, now).value.id)
      && db.tasks == old(db.tasks) + [r.value]
  {
    var current := CurrentUser(db.users, authorization, now);
    if current.Failure? {
      return Failure(current.error);
    }
    var task := ParseTaskCreate(body);
    if task.Failure? {
      return Failure(RequestValidationError(task.error));
    }
    assert current.value.id in UserIds(db.users) by {
      var k :| 0 <= k < |db.users| && db.users[k] == current.value;
      assert UserIds(db.users)[k] == current.value.id;
    }
    var created := db.CreateTask(task.value, current.value.id);
    r := Success(created);
  }

  /** `GET /tasks`: exactly the caller's tasks, in row order. */
  method ReadTasks(db: Database, authorization: Option<Token>, now: int)
    returns (r: Result<seq<Task>, ApiError>)
    ensures CurrentUser(db.users, authorization, now).Failure? ==>
      r == Failure(CurrentUser(db.users, authorization, now).error)
    ensures CurrentUser(db.users, authorization, now).Success? ==>
      r.Success? && r.value == GetTasks(db.tasks, CurrentUser(db.users, authorization, now).value.id)
    ensures r.Success? ==> forall t :: t in r.value ==> t in db.tasks && t.userId == CurrentUser(db.users, authorization, now).value.id
  {
    var current := CurrentUser(db.users, authorization, now);
    if current.Failure? {
      return Failure(current.error);
    }
    r := Success(GetTasks(db.tasks, current.value.id));
  }

  /** `GET /tasks/{task_id}`: the caller's task with that id; someone else's task is "not found". */
  method ReadTask(db: Database, authorization: Option<Token>, taskId: int, now: int)
    returns (r: Result<Task, ApiError>)
    ensures CurrentUser(db.users, authorization, now).Failure? ==>
      r == Failure(CurrentUser(db.users, authorization, now).error)
    ensures CurrentUser(db.users, authorization, now).Success? ==>
      var owner := CurrentUser(db.users, authorization, now).value.id;
      && (r.Success? <==> exists t :: t in db.tasks && t.id == taskId && t.userId == owner)
      && (r.Success? ==> r.value in db.tasks && r.value.id == taskId && r.value.userId == owner)
      && (r.Success? ==> Some(r.value) == GetTask(db.tasks, taskId, owner))
      && (r.Failure? ==> r.error == TaskNotFound)
  {
    var current := CurrentUser(db.users, authorization, now);
    if current.Failure? {
      return Failure(current.error);
    }
    var task := GetTask(db.tasks, taskId, current.value.id);
    if task.None? {
      return Failure(TaskNotFound);
    }
    r := Success(task.value);
  }

  /** `PATCH /tasks/{task_id}/status`: only the status of the caller's task changes. */
  method UpdateStatus(db: Database, authorization: Option<Token>, taskId: int, body: Option<string>, now: int)
    returns (r: Result<Task, ApiError>)
    requires Consistent(db)
    modifies db
    ensures Consistent(db) && db.users == old(db.users)
    ensures CurrentUser(db.users, authorization, now).Failure? ==>
      r == Failure(CurrentUser(db.users, authorization, now).error)
    ensures CurrentUser(db.users, authorization, now).Success? && ParseStatusUpdate(body).Failure? ==>
      r == Failure(RequestValidationError(ParseStatusUpdate(body).error))
    ensures CurrentUser(db.users, authorization, now).Success? && ParseStatusUpdate(body).Success?
            && GetTask(old(db.tasks), taskId, CurrentUser(db.users, authorization, now).value.id).None? ==>
      r == Failure(TaskNotFound)
    ensures r.Success? <==>
      && CurrentUser(db.users, authorization, now).Success?
      && ParseStatusUpdate(body).Success?
      && GetTask(old(db.tasks), taskId, CurrentUser(db.users, authorization, now).value.id).Some?
    ensures r.Failure? ==> db.tasks == old(db.tasks)
    ensures r.Success? ==>
      var i := Locate(old(db.tasks), taskId, CurrentUser(db.users, authorization, now).value.id);
      && ParseStatusUpdate(body).Success?
      && i.Some?
      && r.value == old(db.tasks)[i.value].(status := ParseStatusUpdate(body).value)
      && db.tasks == old(db.tasks)[i.value := r.value]
  {
    var current := CurrentUser(db.users, authorization, now);
    if current.Failure? {
      return Failure(current.error);
    }
    var status := ParseStatusUpdate(body);
    if status.Failure? {
      return Failure(RequestValidationError(status.error));
    }
    ghost var before := db.tasks;
    var task := db.UpdateTaskStatus(taskId, status.value, current.value.id);
    if task.None? {
      return Failure(TaskNotFound);
    }
    assert forall t :: t in db.tasks ==> t in before || t == task.value;
    r := Success(task.value);
  }

  /** `DELETE /tasks/{task_id}`: removes only the caller's task with that id. */
  method DeleteTask(db: Database, authorization: Option<Token>, taskId: int, now: int)
    returns (r: Result<string, ApiError>)
    requires Consistent(db)
    modifies db
    ensures Consistent(db) && db.users == old(db.users)
    ensures CurrentUser(db.users, authorization, now).Failure? ==>
      r == Failure(CurrentUser(db.users, authorization, now).error)
    ensures CurrentUser(db.users, authorization, now).Success?
            && GetTask(old(db.tasks), taskId, CurrentUser(db.users, authorization, now).value.id).None? ==>
      r == Failure(TaskNotFound)
    ensures r.Success? <==>
      && CurrentUser(db.users, authorization, now).Success?
      && GetTask(old(db.tasks), taskId, CurrentUser(db.users, authorization, now).value.id).Some?
    ensures r.Failure? ==> db.tasks == old(db.tasks)
    ensures r.Success? ==>
      var i := Locate(old(db.tasks), taskId, CurrentUser(db.users, authorization, now).value.id);
      && i.Some?
      && r.value == "Task deleted"
      && db.tasks == old(db.tasks)[..i.value] + old(db.tasks)[i.value + 1..]
  {
    var current := CurrentUser(db.users, authorization, now);
    if current.Failure? {
      return Failure(current.error);
    }
    var task := db.DeleteTask(taskId, current.value.id);
    if task.None? {
      return Failure(TaskNotFound);
    }
    r := Success("Task deleted");
  }
}
