/**
 * Clients of the routes, written only against their contracts: the flows of
 * the service's own end-to-end tests, from registration and login to a second
 * user being told that the first user's task does not exist.
 */
module Scenario {
  import opened Wrappers
  import opened Schemas
  import opened Passwords
  import opened Store
  import opened Auth
  import opened Api

  /** Registration into an empty store, then a refused duplicate username. */
  method RegisterTwice(salt: Salt)
  {
    var db := new Database();
    var alice := Register(db, UserForm(Some("alice"), Some("alice@x.com"), Some("secret1")), salt);
    assert alice.Success? && alice.value.id == 1;

    var again := Register(db, UserForm(Some("alice"), Some("other@x.com"), Some("secret1")), salt);
    assert again == Failure(UsernameTaken);
  }

  /** A registered user logs in with the right password and is refused with a wrong one. */
  method LoginRightAndWrong(db: Database, salt: Salt, now: int)
    requires db.users == [User(1, "alice", "alice@x.com", GetPasswordHash("secret1", salt))]
  {
    var good := Login(db, LoginForm(None, Some("alice"), Some("secret1")), now);
    assert good.Success?;
    ShortPasswordVerifiesExactly("wrong", "secret1", salt);
    var bad := Login(db, LoginForm(None, Some("alice"), Some("wrong")), now);
    assert bad == Failure(IncorrectLogin);
  }

  /** A body missing a field is refused with 422 before the tables are read. */
  method MissingFields(db: Database, salt: Salt, now: int)
    requires Consistent(db)
    modifies db
  {
    var form := LoginForm(None, Some("alice"), Some(""));
    assert FormValue(form.password).None? && FormValue(form.username) == Some("alice");
    var blank := Login(db, form, now);
    assert blank.Failure? && blank.error.RequestValidationError?;
    assert PasswordMissing in blank.error.errors && UsernameMissing !in blank.error.errors;
    var body := UserForm(Some("carol"), None, Some("secret1"));
    var noEmail := Register(db, body, salt);
    assert noEmail.Failure? && noEmail.error.RequestValidationError?;
    assert EmailMissing in noEmail.error.errors && UsernameMissing !in noEmail.error.errors;
  }

  /** A task created with a freshly issued token belongs to the registered user. */
  method CreateThenList(db: Database, salt: Salt, now: int, due: DateTime)
    requires Consistent(db) && db.users == [] && db.tasks == []
    modifies db
  {
    var alice := Register(db, UserForm(Some("alice"), Some("alice@x.com"), Some("secret1")), salt);
    assert alice.Success? && |db.users| == 1 && db.users[0].id == 1 && db.users[0].username == "alice";
    var token := Some(LoginToken("alice", now));
    LoginTokenResolves(db.users, "alice", now, now);
    assert CurrentUser(db.users, token, now) == Success(db.users[0]);
    var body := TaskForm(Some("T1"), None, Some("pending"), Some(due));
    assert ParseStatus("pending") == Some(Pending);
    assert ParseTaskCreate(body).Success? && ParseTaskCreate(body).value.status == Pending;
    var task := CreateTask(db, token, body, now);
    assert task.Success? && task.value.id == 1 && task.value.userId == 1 && task.value.status == Pending;

  }

  /** The owner's listing holds the one task, and only until the login token expires. */
  method ListUntilExpiry(db: Database, now: int, task: Task)
    requires Consistent(db) && |db.users| == 1 && db.users[0].username == "alice"
    requires db.tasks == [task] && task.userId == db.users[0].id
  {
    var token := Some(LoginToken("alice", now));
    LoginTokenResolves(db.users, "alice", now, now);
    assert UserByUsername(db.users, "alice") == Some(db.users[0]);
    assert CurrentUser(db.users, token, now) == Success(db.users[0]);
    assert db.tasks[1..] == [];
    assert GetTasks(db.tasks, task.userId) == [task];
    var list := ReadTasks(db, token, now);
    assert list == Success([task]);

    var later := now + AccessTokenExpireMinutes * 60 + 1;
    LoginTokenResolves(db.users, "alice", now, later);
    var late := ReadTasks(db, token, later);
    assert late == Failure(CredentialsError);
  }

  /** Another user reading, re-statusing or deleting someone's task is told it does not exist. */
  method OtherUserSeesNothing(db: Database, bobSalt: Salt, now: int, task: Task)
    requires Consistent(db) && |db.users| == 1 && db.tasks == [task] && task.userId == db.users[0].id
    requires db.users[0].username == "alice" && db.users[0].email == "alice@x.com"
    modifies db
  {
    var bob := Register(db, UserForm(Some("bob"), Some("bob@x.com"), Some("hunter22")), bobSalt);
    assert bob.Success? && bob.value.id != task.userId;
    var token := Some(LoginToken("bob", now));
    LoginTokenResolves(db.users, "bob", now, now);
    var peek := ReadTask(db, token, task.id, now);
    assert peek == Failure(TaskNotFound);
    var change := UpdateStatus(db, token, task.id, Some("completed"), now);
    assert change == Failure(TaskNotFound);
    var gone := DeleteTask(db, token, task.id, now);
    assert gone == Failure(TaskNotFound) && db.tasks == [task];
  }
}
