/**
 * Request and response shapes of the task service and the checks its schema
 * layer applies before a request reaches the core: the status enumeration,
 * the password policy of `UserCreate`, and the required fields of a new task.
 */
module Schemas {
  import opened Wrappers
  import opened Utf8

  /** `StatusEnum`: the only three states a task can be in. */
  datatype Status = Pending | InProgress | Completed

  /** The wire spelling of each status. */
  function StatusValue(s: Status): string
  {
    match s
    case Pending => "pending"
    case InProgress => "in_progress"
    case Completed => "completed"
  }

  /** Enum coercion of a submitted string; any other spelling is rejected. */
  function ParseStatus(raw: string): (r: Option<Status>)
    ensures r.Some? ==> StatusValue(r.value) == raw
    ensures r.None? ==> forall s: Status :: StatusValue(s) != raw
  {
    if raw == "pending" then Some(Pending)
    else if raw == "in_progress" then Some(InProgress)
    else if raw == "completed" then Some(Completed)
    else None
  }

  /** A string is accepted exactly when it spells one of the three states. */
  lemma ParseStatusExact(raw: string, s: Status)
    ensures ParseStatus(raw) == Some(s) <==> raw == StatusValue(s)
  {
  }

  /** A validation failure, answered with status 422 and the field it concerns. */
  datatype ValidationError = ValidationError(field: string, message: string)

  const MaxPasswordBytes := 72
  const MinPasswordLength := 6
  const PasswordTooLong := ValidationError("password", "Password is too long ")
  const PasswordTooShort := ValidationError("password", "Password must be at least 6 characters")

  /**
   * `UserCreate.validate_password`: the byte limit is checked first, then the
   * character count; an accepted password is returned unchanged.
   */
  function ValidatePassword(v: string): (r: Result<string, ValidationError>)
    ensures |Encode(v)| > MaxPasswordBytes ==> r == Failure(PasswordTooLong)
    ensures |Encode(v)| <= MaxPasswordBytes && |v| < MinPasswordLength ==> r == Failure(PasswordTooShort)
    ensures r.Success? <==> MinPasswordLength <= |v| && |Encode(v)| <= MaxPasswordBytes
    ensures r.Success? ==> r.value == v
  {
    if |Encode(v)| > MaxPasswordBytes then Failure(PasswordTooLong)
    else if |v| < MinPasswordLength then Failure(PasswordTooShort)
    else Success(v)
  }

  /**
   * An accepted password has an encoding of 6 to 72 bytes, since every
   * character takes at least one byte.
   */
  lemma AcceptedPasswordBytes(v: string)
    requires ValidatePassword(v).Success?
    ensures MinPasswordLength <= |Encode(v)| <= MaxPasswordBytes
  {
  }

  /** `UserCreate`: a registration request whose password passed the policy. */
  datatype UserCreate = UserCreate(username: string, email: string, password: string)

  /** A registration body as received: every field may be absent. */
  datatype UserForm = UserForm(username: Option<string>, email: Option<string>, password: Option<string>)

  const UsernameMissing := ValidationError("username", "Field required")
  const EmailMissing := ValidationError("email", "Field required")
  const PasswordMissing := ValidationError("password", "Field required")

  /** The problems of one password field: absent, or refused by the policy. */
  function PasswordErrors(raw: Option<string>): seq<ValidationError>
  {
    if raw.None? then [PasswordMissing]
    else if ValidatePassword(raw.value).Failure? then [ValidatePassword(raw.value).error]
    else []
  }

  /**
   * Validation of a registration body: username, email and password are
   * required and the password must pass the policy. Every offending field is
   * reported, in declaration order. The email syntax check is not part of
   * this model.
   */
  function ParseUserCreate(form: UserForm): (r: Result<UserCreate, seq<ValidationError>>)
    ensures r.Success? <==>
      form.username.Some? && form.email.Some? && form.password.Some? && ValidatePassword(form.password.value).Success?
    ensures r.Success? ==> r.value == UserCreate(form.username.value, form.email.value, form.password.value)
    ensures r.Failure? ==> r.error != []
    ensures r.Failure? ==> (form.username.None? <==> UsernameMissing in r.error)
    ensures r.Failure? ==> (form.email.None? <==> EmailMissing in r.error)
    ensures r.Failure? ==> (form.password.None? <==> PasswordMissing in r.error)
    ensures form.password.Some? && ValidatePassword(form.password.value).Failure? ==>
      r.Failure? && ValidatePassword(form.password.value).error in r.error
  {
    var errors :=
      (if form.username.None? then [UsernameMissing] else [])
      + (if form.email.None? then [EmailMissing] else [])
      + PasswordErrors(form.password);
    if errors == [] then
      Success(UserCreate(form.username.value, form.email.value, form.password.value))
    else
      Failure(errors)
  }

  /**
   * The `username` and `password` fields of an OAuth2 password request form,
   * as received. `grant_type` is optional but, when given, must be "password".
   */
  datatype LoginForm = LoginForm(grantType: Option<string>, username: Option<string>, password: Option<string>)

  /** The credentials a valid login form carries. */
  datatype Credentials = Credentials(username: string, password: string)

  const GrantTypeInvalid := ValidationError("grant_type", "String should match pattern '^password$'")

  /** A form value as the framework reads it: an empty value counts as absent. */
  function FormValue(raw: Option<string>): (r: Option<string>)
    ensures r.Some? <==> raw.Some? && raw.value != ""
    ensures r.Some? ==> r.value == raw.value
  {
    if raw.Some? && raw.value != "" then raw else None
  }

  /**
   * Validation of a login form: `username` and `password` are required and
   * non-empty, and a given `grant_type` must be "password". Every offending
   * field is reported, in declaration order.
   */
  function ParseLoginForm(form: LoginForm): (r: Result<Credentials, seq<ValidationError>>)
    ensures r.Success? <==>
      && (FormValue(form.grantType).None? || form.grantType.value == "password")
      && FormValue(form.username).Some? && FormValue(form.password).Some?
    ensures r.Success? ==> r.value == Credentials(form.username.value, form.password.value)
    ensures r.Failure? ==> r.error != []
    ensures r.Failure? ==> (FormValue(form.username).None? <==> UsernameMissing in r.error)
    ensures r.Failure? ==> (FormValue(form.password).None? <==> PasswordMissing in r.error)
  {
    var grantType := FormValue(form.grantType);
    var username := FormValue(form.username);
    var password := FormValue(form.password);
    var errors :=
      (if grantType.Some? && grantType.value != "password" then [GrantTypeInvalid] else [])
      + (if username.None? then [UsernameMissing] else [])
      + (if password.None? then [PasswordMissing] else []);
    if errors == [] then Success(Credentials(username.value, password.value))
    else Failure(errors)
  }

  /** Timestamps (pydantic `datetime`) as whole seconds. */
  type DateTime = int

  /** `TaskCreate` (= `TaskBase`): the fields a client submits for a new task. */
  datatype TaskCreate = TaskCreate(title: string, description: Option<string>, status: Status, dueDate: DateTime)

  /** A task body as received: every field may be absent, the status is still a raw string. */
  datatype TaskForm = TaskForm(title: Option<string>, description: Option<string>,
                               status: Option<string>, dueDate: Option<DateTime>)

  const TitleMissing := ValidationError("title", "Field required")
  const StatusMissing := ValidationError("status", "Field required")
  const StatusInvalid := ValidationError("status", "Input should be 'pending', 'in_progress' or 'completed'")
  const DueDateMissing := ValidationError("due_date", "Field required")

  /** The problems of one status field, if any. */
  function StatusErrors(raw: Option<string>): seq<ValidationError>
  {
    if raw.None? then [StatusMissing]
    else if ParseStatus(raw.value).None? then [StatusInvalid]
    else []
  }

  /**
   * Validation of a task body: title, status and due_date are required, the
   * status must be one of the enumeration's values, description defaults to
   * None. Every offending field is reported, in declaration order.
   */
  function ParseTaskCreate(form: TaskForm): (r: Result<TaskCreate, seq<ValidationError>>)
    ensures r.Success? <==>
      form.title.Some? && form.status.Some? && ParseStatus(form.status.value).Some? && form.dueDate.Some?
    ensures r.Success? ==>
      && r.value.title == form.title.value
      && r.value.description == form.description
      && StatusValue(r.value.status) == form.status.value
      && r.value.dueDate == form.dueDate.value
    ensures r.Failure? ==> r.error != [] && (form.title.None? <==> TitleMissing in r.error)
    ensures r.Failure? ==> (form.dueDate.None? <==> DueDateMissing in r.error)
  {
    var errors :=
      (if form.title.None? then [TitleMissing] else [])
      + StatusErrors(form.status)
      + (if form.dueDate.None? then [DueDateMissing] else []);
    if errors == [] then
      Success(TaskCreate(form.title.value, form.description, ParseStatus(form.status.value).value, form.dueDate.value))
    else
      Failure(errors)
  }

  /** The public view of a user (`schemas.User`): no password material. */
  datatype UserView = UserView(id: int, username: string, email: string)

  /** `TaskUpdateStatus`: the body of a status change. */
  function ParseStatusUpdate(raw: Option<string>): (r: Result<Status, seq<ValidationError>>)
    ensures r.Success? <==> raw.Some? && ParseStatus(raw.value).Some?
    ensures r.Success? ==> StatusValue(r.value) == raw.value
    ensures r.Failure? ==> |r.error| == 1
  {
    if raw.Some? && ParseStatus(raw.value).Some? then Success(ParseStatus(raw.value).value)
    else Failure(StatusErrors(raw))
  }
}
