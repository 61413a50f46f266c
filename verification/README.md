# Task manager authentication and ownership core, in Dafny

This project models the core of a FastAPI task manager. Users register with a
username, an email and a password. They log in for a signed bearer token and
then create, list, read, re-status and delete their own tasks. The model
covers:

- **Credential store and password hashing**: unique usernames and emails, a
  salted bcrypt hash, and the 72-byte cut the code applies to the UTF-8
  encoding of every password before hashing or checking it.
- **Tokens**: JSON Web Tokens (RFC 7519) signed with HS256 (section 3.2 of
  RFC 7518). The `sub` claim (section 4.1.2) names the user. The `exp` claim
  (section 4.1.4) is `now + delta` for a non-zero delta and `now + 15 min`
  otherwise. `login` passes 30 minutes.
- **Identity resolution**: a token resolves only when three things hold: it
  decodes under the key, it carries `sub`, and a user with that username
  still exists. Every failure gives the same 401 error.
- **Owner-scoped task store**: every read, update and delete filters on the
  task id and on the caller's user id. Another user's task therefore looks
  exactly like a missing one.
- **Schema checks**: the password policy (at least 6 characters, at most 72
  UTF-8 bytes), the three-valued status enumeration, and the required fields
  of a new task.
- **The older store without owners** (`db_interaction.py` at the top level).

The store is a `Database` class. It holds the `users` and `tasks` tables as
sequences in row order. Row ids follow SQLite's rule for an integer primary
key: a new row gets the largest id plus one, or 1 in an empty table. The
class invariant `Valid()` says three things: ids ascend in row order, so they
are unique; usernames are unique; emails are unique. The routes also keep
`Api.Consistent`, which adds that every task's `userId` names a registered
user. The clock (`now`) and bcrypt's fresh salt are parameters.

bcrypt and the HS256 MAC are library code. They are modelled symbolically, as
datatype terms built from their inputs. A checksum is equal to another only
when salt and key are equal, and a signature matches only its own key, header
algorithm and claims. The verify-after-hash and decode-after-encode facts are
therefore proved lemmas, not assumptions.

The model follows the code in these details:

- The default token lifetime is 15 minutes (`backend/main.py:81`). Only
  `login` passes 30 minutes.
- A zero `timedelta` is falsy in Python, so it also gives 15 minutes.
- A task title may be empty, because no schema or column forbids it.
- An ownership failure is reported as "Task not found" (404), never as a
  separate error.

Two consequences of the 72-byte cut are proved in `Passwords`.

- A registered password shorter than 72 bytes verifies only against itself.
- A password of exactly 72 bytes also verifies with anything appended at
  login, because `verify_password` cuts the attempt too.

The routes in `backend/main.py` run their queries inline, with the same
filters as the functions in `backend/db_interaction.py`. In the model, the
routes of module `Api` call the store operations of `Store.Database`
instead, so each filter is written once.

Module `Scenario` holds five clients written only against the routes'
contracts. The first registers, is refused a duplicate, and logs in
correctly and incorrectly. The second sends a login form with an empty
password and a registration without an email, and gets 422 for each. The
third creates a task with a fresh token. The fourth lists that task until
the token expires. The fifth shows that a second user's read, re-status and
delete of the first user's task each give "Task not found".

## Model

| member | source | states |
|---|---|---|
| `Utf8.Encode` | backend/main.py:59 | `.encode('utf-8')`: every character takes one to four bytes, so the byte length of a string lies between its character count and four times that |
| `Utf8.DecodeEncodeChar` | backend/main.py:59 | decoding the bytes of one encoded character gives the character back |
| `Utf8.LeadByteAnnouncesWidth` | backend/main.py:59 | the first byte of an encoded character announces how many bytes it takes |
| `Utf8.EncodeAppend` | backend/main.py:59 | the encoding of a concatenation is the concatenation of the encodings |
| `Utf8.EncodeInjective` | backend/main.py:59-60 | two strings with the same encoding are the same string |
| `Schemas.ParseStatus` | backend/schemas.py:7-10 | a submitted string becomes the state it spells; any string that spells no state is refused |
| `Schemas.ParseStatusExact` | backend/schemas.py:7-10 | a submitted status is accepted as a state exactly when it is that state's spelling (`pending`, `in_progress`, `completed`) |
| `Schemas.ValidatePassword` | backend/schemas.py:21-28 | over 72 bytes gives "too long" first; otherwise fewer than 6 characters gives "at least 6 characters"; otherwise the password is returned unchanged |
| `Schemas.AcceptedPasswordBytes` | backend/schemas.py:24-28 | every accepted password encodes to between 6 and 72 bytes |
| `Schemas.ParseUserCreate` | backend/schemas.py:14-28 | a registration body is accepted exactly when username, email and password are present and the password passes the policy; each missing field is reported as "Field required", and a refused password's error is among the reported ones |
| `Schemas.FormValue` | backend/main.py:156 | a form field counts as present exactly when it is sent and is not empty, and then keeps its value |
| `Schemas.ParseLoginForm` | backend/main.py:156 | a login form is accepted exactly when username and password are present and non-empty and any `grant_type` given is "password"; a missing username or password is reported as "Field required" |
| `Schemas.ParseTaskCreate` | backend/schemas.py:51-59 | a task body is accepted exactly when title, a valid status and due_date are present; description is optional and defaults to None; a missing title or due_date is reported |
| `Schemas.ParseStatusUpdate` | backend/schemas.py:68-69 | a status update is accepted exactly when it carries a valid status spelling |
| `Passwords.Truncate` | backend/main.py:59 | `b[:72]`: the first min(72, len) bytes, and the whole input when it is no longer than 72 |
| `Passwords.VerifyPassword` | backend/main.py:56-61 | a password verifies exactly when the stored checksum is bcrypt's checksum of the embedded salt and the password's first 72 UTF-8 bytes, so a hash of a longer key never verifies |
| `Passwords.GetPasswordHash` | backend/main.py:64-70 | the hash carries the given salt and the password verifies against it |
| `Passwords.VerifyHash` | backend/main.py:56-70 | a password verifies against a hash of another exactly when their first 72 encoded bytes agree |
| `Passwords.OnlyFirst72BytesMatter` | backend/main.py:56-70 | two passwords equal on their first 72 bytes hash identically and get the same verdict against any hash |
| `Passwords.ShortPasswordVerifiesExactly` | backend/main.py:56-61 | against the hash of a password under 72 bytes, only that password verifies |
| `Passwords.LongPasswordAcceptsSuffix` | backend/main.py:56-61 | against the hash of a password of 72 bytes or more, any extension of it verifies |
| `Passwords.AcceptedPasswordHashedWhole` | backend/main.py:67 | for a password the policy accepts, the 72-byte cut keeps the whole encoding |
| `Tokens.Encode` | backend/main.py:83 | the token's header names HS256, its payload is the claims unchanged, and no other key produces its signature |
| `Tokens.Decode` | backend/main.py:112 | a token that decodes is exactly the encoding of its claims under the key, and its `exp`, if any, is not in the past |
| `Tokens.DecodeEncode` | backend/main.py:83 | decoding an encoded token under the same key returns its claims, or "expired" once `exp < now` |
| `Tokens.OtherKeyRejected` | backend/main.py:112 | a token signed with another key is refused with a signature error |
| `Tokens.TamperedClaimsRejected` | backend/main.py:112 | a token whose claims differ from the signed ones is refused with a signature error |
| `Tokens.Expiry` | backend/main.py:76-81 | `exp = now + delta` for a non-zero delta, `now + 15 min` for an absent or zero one |
| `Tokens.CreateAccessToken` | backend/main.py:74-84 | the token keeps `sub` from the input claims and sets `exp` to the computed expiry |
| `Tokens.CreatedTokenLifetime` | backend/main.py:74-84 | an issued token decodes to the input claims plus `exp` at every instant up to `exp`, and is refused as expired afterwards |
| `Store.PublicUser` | backend/schemas.py:36-38 | the public user view carries exactly id, username and email |
| `Store.MaxId` | backend/models.py:22 | the largest id is one of the ids and no id exceeds it |
| `Store.NextRowId` | backend/models.py:22 | a new row id exceeds every id in use; it is 1 in an empty table |
| `Store.NextRowIdAfterLast` | backend/models.py:22 | when ids ascend, the new id is one past the last row's |
| `Store.UserByUsername` | backend/main.py:88-89 | returns a user in the table with that username, and None exactly when no user has it |
| `Store.UserByEmail` | backend/main.py:92-93 | returns a user in the table with that email, and None exactly when no user has it |
| `Store.UserByUsernameUnique` | backend/models.py:11 | with unique usernames, looking up a user's name returns that very user |
| `Store.Locate` | backend/db_interaction.py:34 | the first row matching both id and owner, or None exactly when no row matches both |
| `Store.GetTask` | backend/db_interaction.py:32-34 | returns a row with that id and that owner, and None exactly when there is none |
| `Store.GetTasks` | backend/db_interaction.py:37-39 | the listed tasks are exactly the rows owned by the user |
| `Store.GetTasksAppend` | backend/db_interaction.py:37-39 | listing keeps row order: the list for a concatenation is the concatenation of the lists |
| `Store.GetTaskSeesOnlyOwnTasks` | backend/db_interaction.py:32-34 | a user's lookup gives the same answer when every other user's rows are removed |
| `Store.ForeignTasksInvisible` | backend/main.py:210-216 | two tables holding the same tasks for a user answer every lookup by that user identically, so a foreign task looks like a missing one |
| `Store.GetTaskFindsRow` | backend/db_interaction.py:32-34 | with unique ids, a row's owner finds it by its id |
| `Store.AppendTaskEffect` | backend/db_interaction.py:23-29 | a new row appears at the end of its owner's list and in no other user's list |
| `Store.SetStatusEffect` | backend/db_interaction.py:42-49 | a status change alters only that one entry of its owner's list; every other user's list is unchanged |
| `Store.SetStatusSeen` | backend/db_interaction.py:42-49 | after a status change, the owner's lookup of that id returns the updated row |
| `Store.RemoveEffect` | backend/db_interaction.py:52-58 | removing a row takes it out of its owner's list and leaves every other user's list unchanged |
| `Store.RemovedTaskIsGone` | backend/db_interaction.py:52-58 | after removal, no user finds the removed id |
| `Store.Database.CreateUser` | backend/db_interaction.py:8-19 | appends one user with the next id, the username, the email and the hash of the password; fails with no change when the username or email is taken; tasks unchanged |
| `Store.Database.CreateTask` | backend/db_interaction.py:23-29 | appends one task with the submitted fields, the given owner and a fresh id; users unchanged |
| `Store.Database.UpdateTaskStatus` | backend/db_interaction.py:42-49 | None with no change when the user has no task with that id; otherwise only that row's status changes and the updated row is returned |
| `Store.Database.DeleteTask` | backend/db_interaction.py:52-58 | returns the matching row as it was and removes only it, so no row appears that was not there, or None with no change |
| `Auth.AuthenticateUser` | backend/main.py:96-102 | None when no user has the username or the password fails; a returned user has the username and the password verifies; with unique usernames, success exactly when such a user exists |
| `Auth.GetCurrentUser` | backend/main.py:105-122 | every failure is the one "Could not validate credentials" error; success exactly when the token decodes, has `sub`, and a user has that username, and that user is returned |
| `Auth.AuthenticateAfterRegister` | backend/main.py:96-102 | after registering a new username, logging in with its password returns the new user; for a password under 72 bytes, no other password logs in |
| `Api.CurrentUser` | backend/main.py:42 | no bearer token gives "Not authenticated"; otherwise the caller is whatever `get_current_user` resolves |
| `Api.LoginToken` | backend/main.py:166-169 | the token `login` issues names the user in `sub`, expires 30 minutes after issue, and decodes under the service key at issue time |
| `Api.LoginTokenResolves` | backend/main.py:166-169 | a login token resolves exactly while it is unexpired (30 minutes) and a user with its username exists, and it resolves to that user |
| `Api.Register` | backend/main.py:129-152 | a missing field or a password outside the policy gives 422 before the tables are read; a taken username gives "Username already registered" before email is checked; a taken email gives "Email already registered"; otherwise exactly one user is appended with the hash, and only id, username and email are returned; tasks unchanged |
| `Api.Login` | backend/main.py:155-170 | an invalid form gives 422 before the tables are read; otherwise succeeds exactly when `authenticate_user` does, with a bearer token for `sub = username` valid 30 minutes, and fails with "Incorrect username or password" |
| `Api.ReadUsersMe` | backend/main.py:173-176 | the public view of the resolved caller, or the resolution error |
| `Api.CreateTask` | backend/main.py:180-191 | a token error comes first, then body validation (422); on success one task is appended, owned by the resolved caller, with the submitted fields and a fresh id |
| `Api.ReadTasks` | backend/main.py:194-200 | exactly the caller's tasks, in row order |
| `Api.ReadTask` | backend/main.py:203-216 | succeeds exactly when the caller owns a task with that id and returns the first such row, as `.first()` does; otherwise "Task not found" |
| `Api.UpdateStatus` | backend/main.py:219-237 | token error, then 422 for a bad status, then "Task not found" with no change for a missing or foreign task; otherwise only the status of the caller's task changes |
| `Api.DeleteTask` | backend/main.py:240-256 | token error, then "Task not found" with no change; otherwise only the caller's task with that id is removed and "Task deleted" is returned |
| `PlainStore.Locate` | db_interaction.py:15 | the first row with that id, or None exactly when no row has it |
| `PlainStore.GetTask` | db_interaction.py:14-15 | returns a row with that id, and None exactly when there is none |
| `PlainStore.GetTaskFindsRow` | db_interaction.py:14-15 | with unique ids, each row is what a lookup of its id returns |
| `PlainStore.RemoveOtherRow` | db_interaction.py:28-33 | removing a row with another id leaves a lookup unchanged |
| `PlainStore.SetStatusEffect` | db_interaction.py:20-26 | after a status change, a lookup of that id returns the updated row and a lookup of any other id is unchanged |
| `PlainStore.RemoveEffect` | db_interaction.py:28-33 | after removal, a lookup of that id is None and a lookup of any other id is unchanged |
| `PlainStore.PlainDatabase.GetTasks` | db_interaction.py:17-18 | every row of the table, in row order |
| `PlainStore.PlainDatabase.CreateTask` | db_interaction.py:6-11 | appends one task with the submitted fields and a fresh id, with no owner |
| `PlainStore.PlainDatabase.UpdateTaskStatus` | db_interaction.py:20-26 | None with no change when the id is absent; otherwise only that row's status changes and it is returned |
| `PlainStore.PlainDatabase.DeleteTask` | db_interaction.py:28-33 | returns the row with that id as it was and removes only it, or None with no change |

## Left out

- bcrypt and HS256 internals are library code, modelled as symbolic terms. The model treats the hash as collision-free and the MAC as unforgeable. It does not capture one-wayness, the bcrypt cost factor, or timing-safe comparison. The salt from `bcrypt.gensalt()` is a parameter.
- A JWT is modelled as a header algorithm, claims and a signature, or as an unparsable string. The compact base64url serialisation, the other registered claims and `jose`'s leeway are not modelled. Time is in whole seconds.
- `Utf8.Encode`: Dafny characters are Unicode scalar values. A Python string holding a lone surrogate, which makes `.encode('utf-8')` raise, cannot be written in this model.
- `EmailStr` syntax checking and its normalisation are pydantic's; emails are plain strings here. JSON and `datetime` parsing are also pydantic's. Every request body (the registration JSON, the login form, a task body, a status body) arrives as a record of optional fields, and due dates are whole seconds. A login form field sent empty counts as absent, as the framework reads forms; the optional `scope`, `client_id` and `client_secret` form fields are not modelled. A registration request with no JSON body at all is modelled as a body whose three fields are absent.
- `Schemas.ParseUserCreate`, `Schemas.ParseLoginForm`: the messages of the "Field required" and `grant_type` errors follow the framework's wording, but the error locations beyond the field name are not modelled.
- `Schemas.ParseTaskCreate`: its error list reports missing and invalid fields in field order, but not pydantic's exact message texts or error locations beyond the field name.
- Task rows are values in a sequence. SQLAlchemy's identity map is not modelled: `update_task_status` mutates the very object it returns, whereas here the updated row is returned as a copy.
- SQLite's fallback to a random row id when the largest id is 2^63-1 is not modelled.
- `Store.GetTask`, `Api.ReadTask`, `Api.UpdateStatus`, `Api.DeleteTask` and the lookups of `Store.Database` and `PlainStore.PlainDatabase`: ids are unbounded integers. SQLite stores and binds signed 64-bit integers, and the driver cannot bind a `task_id` outside that range (a server error, before any row is filtered); the model answers such an id with None or "Task not found". A `task_id` path segment that is not an integer (a 422 from the framework) is not modelled either.
- The `get_db` session lifecycle, commit and refresh, transactions, and isolation between concurrent requests are not modelled. Each operation is one atomic step.
- CORS configuration, the uvicorn launch, engine setup (`backend/database.py`) and the diagnostic scripts are not modelled. The ORM's two-way `relationship` between users and tasks is also left out; a task keeps `user_id` as a one-way reference.
- The top-level `main.py` and `schemas.py` only map None to 404 and repeat the status enumeration, so they are not modelled separately.
- `authentication`, imported by `backend/db_interaction.py`, is not part of this model. `create_user` uses the same hash as `backend/main.py`.
- Response headers such as `WWW-Authenticate` are not modelled.
