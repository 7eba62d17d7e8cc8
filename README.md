# Task API with bearer-token authentication — a Dafny model

This project models the core of a small multi-user task API written in Ruby on Rails:

- **Issuing and checking tokens.** `JwtToken` mints an HS256 JSON Web Token holding `user_id`, `iat` and `exp`, where `exp` is 24 hours after `iat`. It decodes a token with the algorithm pinned to HS256.
- **The authentication gate.** `authenticate_user!` takes the token from an `Authorization: Bearer <token>` header, decodes it and loads the user. Every failure collapses into one `JWT::DecodeError`.
- **The exception table.** `ApplicationController`'s `rescue_from` table turns exceptions into 401, 404 and 422 JSON error envelopes.
- **Tasks.** The task resource (index, show, create, update, destroy) reaches the task table only through the acting user's own tasks. The task model supplies the status enum, the validations and the filter scopes.
- **Accounts.** Login (`sessions#create`) and sign-up (`registrations#create`).

Each Ruby file becomes one Dafny module:

- Code that computes a value is modelled as functions.
- State the source changes is modelled as classes:
  - `TaskStore`: the task table, a map from id to row.
  - `UserTable`: the user table, rows in id order.
  - `Controller`: holds `@current_user`.
- A whole request to the task resource is `TasksController.Perform`: the before_action, then the action, then `rescue_from`.
- Two helper modules stand in for library code:
  - `RubyCore`: nil, `blank?`, `start_with?`, `split(" ")`, `downcase` and `Integer#to_s`.
  - `Exceptions`: the exception classes involved, and `Result`.

Library code that is not part of this model enters as parameters:

- **Token parser.** The compact token form (base64url JSON) is `parse: string -> Option<Jwt>`. The HMAC is a free constructor `Hmac(alg, claims, key)`, so two MACs agree exactly when algorithm, claims and key agree.
- **Clock.** The current time is `now`, in seconds.
- **bcrypt.** bcrypt is a `Hasher` from (password, salt) to a checksum. The salt it draws is a parameter. Properties that need "different passwords hash differently" require `InjectiveHasher`.
- **Email format.** The email format check is `emailFormat: string -> bool`.

Two behaviours of the code worth noting:

- **An unknown task status.** Assigning a status outside the enum raises `ArgumentError` ("'v' is not a valid status"). No handler catches it, so it is not a 422 validation failure. The request spec expects the same.
- **A key sent as nil.** A request key sent as nil (JSON null) is not the same as a key left out. It makes the `task` or `user` hash non-empty, so `require` passes, and assignment writes nil over the attribute. A task created with `status: null` is refused with "Status is not included in the list" instead of getting the 'pending' default.
- **Failed authentication.** Every authentication failure (no header, wrong scheme, blank token, bad or expired token, deleted user) ends in the same `JWT::DecodeError("Invalid or expired token")` and the same 401 envelope. There is no separate "missing credentials" outcome.

## Model

| member | source | states |
|---|---|---|
| RubyCore.Split | app/controllers/concerns/jwt_authenticatable.rb:24 | `split(" ")` yields only non-empty fields free of ASCII whitespace |
| RubyCore.SplitAfterWord | app/controllers/concerns/jwt_authenticatable.rb:24 | splitting a word, a separator and a rest gives the word followed by the fields of the rest |
| RubyCore.SplitWord | app/controllers/concerns/jwt_authenticatable.rb:24 | a non-empty string without separators splits into exactly itself |
| RubyCore.SplitAllSpace | app/controllers/concerns/jwt_authenticatable.rb:24 | a string made only of separators splits into no fields |
| JwtToken.Encode | lib/jwt_token.rb:6-14 | the token names HS256, carries user_id, iat = now and exp = now + 24*3600, and is MACed under the secret over exactly those claims |
| JwtToken.LibraryDecode | lib/jwt_token.rb:17 | decoding succeeds iff the token parses, its header names HS256 in any letter case, it carries the MAC under the secret over its header and claims, and it is not expired; the result is the token's claims; every failure is a JWT::DecodeError kind |
| JwtToken.Decode | lib/jwt_token.rb:16-21 | returns the user_id claim of an accepted token (nil when absent) and re-raises the library's exception unchanged |
| JwtToken.DecodeEncode | lib/jwt_token.rb:6-21 | round trip: a minted token decodes to its user id under the same secret at any time before exp |
| JwtToken.DecodeExpired | lib/jwt_token.rb:9 | from exp = iat + 24h on, the same token raises ExpiredSignature |
| JwtToken.DecodeOtherSecret | lib/jwt_token.rb:13-17 | a token minted under another secret raises VerificationError at any time |
| JwtToken.DecodeOtherAlgorithm | lib/jwt_token.rb:17 | a token whose header names another algorithm, in any letter case, raises IncorrectAlgorithm (no algorithm confusion) |
| JwtToken.DecodeLowerCaseAlgorithm | lib/jwt_token.rb:17 | a header naming "hs256" with a MAC under the secret is accepted like "HS256", as the library compares algorithm names without regard to case |
| JwtToken.DecodeSound | lib/jwt_token.rb:16-18 | a successful decode implies HS256 up to letter case, a MAC under this secret over the token's own header and claims, not expired, and returns its user_id |
| Users.AuthenticateOriginalOnly | app/controllers/api/v1/auth/sessions_controller.rb:8 | with an injective hash, `authenticate` accepts exactly the password the digest was made from |
| Users.Authenticate | app/controllers/api/v1/auth/sessions_controller.rb:8 | `authenticate` accepts a password iff hashing it under the stored salt reproduces the stored digest |
| Users.FirstIndex | app/controllers/api/v1/auth/sessions_controller.rb:6 | the index of the first row satisfying the condition, or none when no row does |
| Users.Find | app/controllers/concerns/jwt_authenticatable.rb:13 | `User.find` succeeds iff the id is non-nil and some row has it; the row returned has that id; otherwise RecordNotFound |
| Users.FindByEmail | app/controllers/api/v1/auth/sessions_controller.rb:6 | `find_by(email:)` finds a row iff the email is non-nil and some row holds exactly it, and returns such a row |
| Users.UserErrors | app/controllers/api/v1/auth/registrations_controller.rb:6-7 | a new user has no validation messages iff the email is present, not blank, not taken in any case and well-formed, and the password has at least 6 characters |
| Users.PermitUser | app/controllers/api/v1/auth/sessions_controller.rb:30-32 | `params.require(:user).permit(:email, :password)` raises ParameterMissing iff the hash is absent or has no key at all (a key sent as nil counts); otherwise it keeps only email and password, a nil value and a missing key both reading as nil (the registration controller's lines 22-24 are the same) |
| Users.UserTable.Save | app/controllers/api/v1/auth/registrations_controller.rb:6-7 | `save!` raises RecordInvalid with the full messages and leaves the table, or appends one row with a new id, the email, the digest and the creation time; it keeps ids ascending and emails unique up to case |
| TaskModel.StatusOfKey | app/models/task.rb:4-8 | `statuses.key?`: answers the status whose key is the string, or none when no status has that key |
| TaskModel.StatusKeys | app/models/task.rb:4-8 | the enum's keys are exactly pending, in_progress and completed |
| TaskModel.NewTask | db/migrate/20251214002751_create_tasks.rb:4-8 | a task built for a user belongs to that user and has status 'pending' and no other attribute set |
| TaskModel.CastStatus | app/models/task.rb:4-8 | enum assignment: a blank value casts to nil, a key to its status, and any other value raises ArgumentError "'v' is not a valid status" |
| TaskModel.CastStatusParam | app/models/task.rb:4-8 | assigning a request value to the enum: nil and blank values give nil, a key gives its status, anything else raises ArgumentError |
| TaskModel.Assign | app/models/task.rb:4-8 | assigning params replaces each supplied attribute, a supplied nil included, keeps the rest and the owner, and raises when the status cast raises |
| TaskModel.TitleErrors | app/models/task.rb:10 | the title validation passes iff the title is present, not blank and 1 to 255 characters long; at most two title messages come at once |
| TaskModel.StatusErrors | app/models/task.rb:11 | the inclusion validation passes iff the status is not nil, with at most one message |
| TaskModel.FullMessages | app/models/task.rb:10-11 | at most three messages, none iff both the title and the status validations pass |
| TaskModel.ValidTask | app/models/task.rb:10-11 | a task is valid iff its title is and its status is one of the enum's |
| TaskModel.EmptyTitleErrors | app/models/task.rb:10 | an empty title gives "can't be blank" then "is too short (minimum is 1 character)" |
| TaskModel.ByStatus | app/models/task.rb:13 | a known status filters the tasks to those with it; any other argument leaves the relation unfiltered |
| TaskModel.ByStatusPartition | app/models/task.rb:13 | each task with a status is in the scope of its own status and in no other status's scope |
| TaskModel.DueBefore | app/models/task.rb:14 | exactly the tasks with a due date strictly before the date |
| TaskModel.DueAfter | app/models/task.rb:15 | exactly the tasks with a due date strictly after the date |
| TaskModel.DueScopesSplit | app/models/task.rb:14-15 | the two date scopes are disjoint and together hold exactly the tasks with a due date other than the date itself |
| JwtAuthenticatable.ExtractTokenFromHeader | app/controllers/concerns/jwt_authenticatable.rb:20-25 | a token is extracted iff the header exists and starts with "Bearer " (case-sensitive); it is then the last whitespace-separated field of the header, non-empty and without ASCII whitespace |
| JwtAuthenticatable.ExtractAfterPrefix | app/controllers/concerns/jwt_authenticatable.rb:24 | after the prefix the token is the last field of the rest, or the word "Bearer" itself when only whitespace follows |
| JwtAuthenticatable.ExtractBearerToken | app/controllers/concerns/jwt_authenticatable.rb:20-25 | a well-formed `Bearer <token>` header yields exactly that token |
| JwtAuthenticatable.ExtractLastField | app/controllers/concerns/jwt_authenticatable.rb:24 | "Bearer a b" yields "b", the last field |
| JwtAuthenticatable.ExtractPrefixOnly | app/controllers/concerns/jwt_authenticatable.rb:24 | "Bearer " yields the word "Bearer" itself |
| JwtAuthenticatable.ExtractNeedsExactPrefix | app/controllers/concerns/jwt_authenticatable.rb:24 | "bearer a" and "Bearer" yield nil: the prefix is case-sensitive and includes the space |
| JwtAuthenticatable.BlankTokenAfterPrefix | app/controllers/concerns/jwt_authenticatable.rb:10 | in a UTF-8 header, a no-break space after the prefix is extracted as a token that `blank?` rejects, so the blank check can fire |
| JwtAuthenticatable.AuthenticateRequestBody | app/controllers/concerns/jwt_authenticatable.rb:9-13 | before the rescue, the only exceptions are JWT decode errors and RecordNotFound |
| JwtAuthenticatable.AuthenticateRequest | app/controllers/concerns/jwt_authenticatable.rb:8-16 | every failure is the one DecodeError "Invalid or expired token" |
| JwtAuthenticatable.AuthenticateOk | app/controllers/concerns/jwt_authenticatable.rb:8-16 | authentication succeeds iff a non-blank token parses, is accepted under the secret now and names an existing user; the user returned is that one |
| JwtAuthenticatable.AuthenticateFailuresAlike | app/controllers/concerns/jwt_authenticatable.rb:14-15 | any two failed authentications end in the same exception |
| JwtAuthenticatable.AuthenticateWithoutHeader | app/controllers/concerns/jwt_authenticatable.rb:22 | a request without an Authorization header is rejected |
| JwtAuthenticatable.AuthenticateIssuedToken | app/controllers/concerns/jwt_authenticatable.rb:8-16 | a token minted for an existing user under the secret, sent as `Bearer <t>` before it expires, authenticates as that user |
| JwtAuthenticatable.Controller.AuthenticateUser | app/controllers/concerns/jwt_authenticatable.rb:8-16 | the result is the gate's; `@current_user` is set on success and untouched on failure; the user table is only read |
| ApplicationController.ValidationEntries | app/controllers/application_controller.rb:33-39 | one entry per message, each with status "422" and title "Invalid params" |
| ApplicationController.ValidationEntriesDetails | app/controllers/application_controller.rb:33-39 | the entries' details are the full messages, in order |
| ApplicationController.AuthenticationError | app/controllers/application_controller.rb:11-19 | a 401 envelope with one entry, whose status string matches and whose detail is the fixed "Invalid or missing authentication token" |
| ApplicationController.NotFoundError | app/controllers/application_controller.rb:21-29 | a 404 envelope with one entry, whose status string matches and whose detail is the exception's message |
| ApplicationController.ValidationError | app/controllers/application_controller.rb:31-41 | a 422 envelope whose entries' status strings match and whose details are the full messages in order |
| ApplicationController.RescueFrom | app/controllers/application_controller.rb:4-41 | an exception is handled iff it is a JWT decode error, RecordNotFound or RecordInvalid; each maps to its envelope, whose entries carry the envelope's HTTP status as a string |
| ApplicationController.AuthenticationErrorsAlike | app/controllers/application_controller.rb:11-19 | whatever the JWT exception and its message, the response is the same 401 with one fixed entry |
| ApplicationController.ValidationEnvelope | app/controllers/application_controller.rb:31-41 | RecordInvalid becomes a 422 whose details are the full messages in order |
| TasksController.TaskParamsOf | app/controllers/api/v1/tasks_controller.rb:36-38 | raises ParameterMissing iff the task hash is absent or has no key at all (a key sent as nil counts); otherwise keeps exactly title, description, status and due_date, nil values included |
| TasksController.OwnedBy | app/controllers/api/v1/tasks_controller.rb:7 | `current_user.tasks` is exactly the rows the user owns, unchanged |
| TasksController.NotFoundMessage | app/controllers/api/v1/tasks_controller.rb:12 | the not-found message is the fixed prefix followed by the id's decimal digits |
| TasksController.FindOwned | app/controllers/api/v1/tasks_controller.rb:12 | finds the task iff it exists and the user owns it; otherwise RecordNotFound naming the id |
| TasksController.CreateOutcome | app/controllers/api/v1/tasks_controller.rb:16-20 | create succeeds iff the hash is present and non-empty, the title is sent, non-blank and at most 255 characters, and the status is not sent or is a key; the task is then owned by the user, valid, carries the sent attributes and defaults to 'pending'; otherwise ParameterMissing for a missing hash, ArgumentError for a refused status, or RecordInvalid carrying the built task's full messages |
| TasksController.UpdateOutcome | app/controllers/api/v1/tasks_controller.rb:22-26 | update succeeds iff the user owns the task, the hash is present and non-empty, the title it leaves is present, non-blank and at most 255 characters, and the status it leaves is a key; it then replaces exactly the supplied attributes; otherwise RecordNotFound, ParameterMissing, ArgumentError or RecordInvalid carrying the assigned task's full messages, in the order the action meets them |
| TasksController.OtherOwnerLikeAbsent | app/controllers/api/v1/tasks_controller.rb:12-29 | another user's task behaves exactly as a missing one for show, update and destroy |
| TasksController.CreateIgnoresClientOwner | app/controllers/api/v1/tasks_controller.rb:17-37 | an owner sent by the client changes nothing about the created task |
| TasksController.CreateBlankTitle | app/controllers/api/v1/tasks_controller.rb:17-18 | a blank title is RecordInvalid with the two title messages, rendered as 422 |
| TasksController.CreateInvalidStatus | app/controllers/api/v1/tasks_controller.rb:17 | status "invalid_status" raises ArgumentError, which no handler catches |
| TasksController.CreateNilStatus | app/controllers/api/v1/tasks_controller.rb:17-18 | a status sent as nil clears the default, and the task is refused with "Status is not included in the list" |
| TasksController.UpdateNilDescription | app/controllers/api/v1/tasks_controller.rb:23-24 | a description sent as nil clears the description of a valid task and changes nothing else |
| TasksController.TaskStore.Index | app/controllers/api/v1/tasks_controller.rb:6-9 | returns exactly the user's tasks |
| TasksController.TaskStore.Show | app/controllers/api/v1/tasks_controller.rb:11-14 | the user's task with this id, or RecordNotFound |
| TasksController.TaskStore.Create | app/controllers/api/v1/tasks_controller.rb:16-20 | inserts the created task under a fresh id, or raises and leaves the table as it was |
| TasksController.TaskStore.Update | app/controllers/api/v1/tasks_controller.rb:22-26 | writes back the updated task at its id, or raises and leaves the table as it was |
| TasksController.TaskStore.Destroy | app/controllers/api/v1/tasks_controller.rb:28-32 | removes exactly the user's task with this id, or raises RecordNotFound and leaves the table as it was |
| TasksController.Dispatch | app/controllers/api/v1/tasks_controller.rb:6-32 | each action's response and new table: reads and failures leave the table as it was; a task the user does not own is a 404 for show, update and destroy; create and update render iff their outcome succeeds, writing the new row under the fresh id or at its own id; destroy removes exactly the owned row |
| TasksController.DispatchConfined | app/controllers/api/v1/tasks_controller.rb:6-32 | whatever the action, other users' rows stay unchanged and every row written belongs to the acting user |
| TasksController.DispatchCreateGrows | app/controllers/api/v1/tasks_controller.rb:16-20 | a successful create adds exactly one row, under the fresh id |
| TasksController.Act | app/controllers/api/v1/tasks_controller.rb:6-32 | the response and the new table are exactly those of `Dispatch` on the table and id counter as they were; other users' rows stay unchanged and every row written is the user's |
| TasksController.Perform | app/controllers/api/v1/tasks_controller.rb:4 | a failed authentication renders the 401 envelope and touches neither the table nor `@current_user`; otherwise `@current_user` is the authenticated user and the response and new table are those of `Dispatch` for that user's id |
| SessionsController.Login | app/controllers/api/v1/auth/sessions_controller.rb:5-26 | login renders 200 iff a user holds the email and the password authenticates; the body carries that user's id and email and a token minted for them now; every other failure is the fixed 401 entry |
| SessionsController.InvalidCredentials | app/controllers/api/v1/auth/sessions_controller.rb:18-24 | a 401 envelope with one entry whose status string matches and whose detail is "Invalid email or password", distinct from the token-failure envelope |
| SessionsController.UnknownEmailLikeWrongPassword | app/controllers/api/v1/auth/sessions_controller.rb:8-24 | an unknown email and a wrong password give the same response |
| SessionsController.LoginIgnoresOtherKeys | app/controllers/api/v1/auth/sessions_controller.rb:30-32 | keys other than email and password do not affect login |
| SessionsController.LoginNilEmail | app/controllers/api/v1/auth/sessions_controller.rb:6-31 | a user hash whose email is sent as nil passes `require`, finds no user and gets the 401 entry |
| SessionsController.LoginWithPassword | app/controllers/api/v1/auth/sessions_controller.rb:8 | with an injective hash, the user found by email logs in with exactly the original password |
| SessionsController.LoginThenAuthenticate | app/controllers/api/v1/auth/sessions_controller.rb:9 | the token a login returns, presented before it expires, authenticates as the user who logged in |
| RegistrationsController.Create | app/controllers/api/v1/auth/registrations_controller.rb:5-18 | sign-up renders 201 with the new user and a token minted for its id and appends exactly one row; a validation failure renders the 422 envelope and leaves the table; the table's invariant is kept |
| RegistrationsController.SecondRegistrationTaken | app/controllers/api/v1/auth/registrations_controller.rb:6-7 | once an email is registered, registering it again in any case fails with "Email has already been taken" |
| RegistrationsController.RegisterThenLogin | app/controllers/api/v1/auth/registrations_controller.rb:6-8 | a user registered with an email and password logs in with the same two, as the new user |

## Left out

- JwtToken.Encode: reads the clock once; the source calls `Time.now` twice. The two calls could straddle a second boundary, so `exp - iat` could be 86401 instead of 86400.
- JwtToken.LibraryDecode: models the library's checks on the algorithm, the signature and `exp` only. The `nbf` and `iat` checks and the leeway are left out: the tokens minted here carry no `nbf` and no leeway is configured. The exception messages are the library's usual ones; no caller reads them.
- The compact wire form of a token (base64url, JSON, the HMAC-SHA256 computation) is library code, not part of this model. It enters through the `parse` parameter.
- The process-wide secret (config/initializers/jwt.rb: environment, credentials or a random value) enters as the `secret` parameter.
- The user model (app/models/user.rb) is not part of this model. Its validations are taken from its model spec: email presence, case-insensitive uniqueness and format; password length at least 6.
  - The order of the messages in Users.UserErrors is assumed.
  - The email format is the `emailFormat` parameter.
  - has_secure_password's 72-byte maximum and password confirmation are left out.
- RubyCore.Downcase: lower-cases ASCII letters only; Ruby's `downcase` also folds non-ASCII letters.
- Users.EmailTaken: stands for the uniqueness validation's query, which compares `LOWER(email)` in the database. The model compares with `Downcase`, so the two agree on ASCII letters only.
- Users.InjectiveHasher: holds for bcrypt only on passwords of at most 72 bytes. bcrypt ignores every byte after the 72nd, so the real `authenticate` also accepts a 72-byte original followed by anything. `AuthenticateOriginalOnly` and `LoginWithPassword` assume it.
- bcrypt is the `Hasher` parameter. Its cost factor and the random salt it draws are not modelled; the salt is a parameter of `Save`.
- Dates are day numbers (`int`). Parsing a `due_date` string and the time zone are left out.
- Timestamps: only the user's `created_at` is modelled. The tasks' `created_at` and `updated_at` are left out.
- TasksController.TaskParamsOf: the unpermitted keys of a task hash are represented by one field, an owner the client might send.
- TasksController.NotFoundMessage: `current_user.tasks.find` names the id but not the association's condition. The message matches the one the handler renders up to that suffix.
- Rails renders ParameterMissing as 400 and an uncaught ArgumentError as 500. Both lie outside the controllers' `rescue_from` table, so the model leaves them as `Unhandled` responses.
- Serialisation of the rendered JSON is left out: field names, the `tasks` wrapper and the task's attributes as JSON.
- Concurrency is left out: each request runs alone. The database's unique index and races between two registrations of the same email are not modelled.
- `dependent: :destroy` on a user's tasks is left out: no operation here deletes a user.
