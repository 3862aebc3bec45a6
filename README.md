# ImpulseLog: request handling and client token logic in Dafny

ImpulseLog is a journal for impulses: an ASP.NET Core backend stores users and their
impulse entries, and a shared TypeScript `ApiClient` talks to it from the desktop and
mobile apps. This project models:

- the backend's two tables;
- the actions of its three controllers:
  - `ImpulseEntriesController`: list, get, create, update, delete;
  - `AuthController`: register, login;
  - `UsersController`: read and edit the caller's account;
- the models and DTOs with their validation attributes;
- the client's token state, its `Authorization` header and the query string of the list call.

Module layout (one file each):

| module | models |
|---|---|
| `Wrappers` | `Option` (C# `null` and `??`), `Result` |
| `Annotations` | the DataAnnotations attributes used: `[Required]`, `[StringLength]`, `[EmailAddress]` |
| `Models` | `User` and `ImpulseEntry`, their column constraints, the `DidAct` default |
| `Dtos` | request and response bodies, their validation, JSON binding of the entry bodies, the response projections |
| `Http` | the action results and the exceptions an action can throw |
| `Security` | BCrypt and JWT, passed in as values (`PasswordHasher`, `TokenIssuer`) |
| `Claims` | `GetCurrentUserId`, including `int.Parse` with `NumberStyles.Integer` and its inverse `int.ToString` |
| `Store` | `AppDbContext` as a class with two table fields, the key invariant, the lookups |
| `ImpulseEntriesController`, `AuthController`, `UsersController` | the actions |
| `UrlSearchParams` | `URLSearchParams.toString()`: the WHATWG form-urlencoded serializer, with a parser as its inverse |
| `SharedClient` | the `ApiClient` class |

Read-only actions (`GetImpulses`, `GetImpulse`, `Login`, `GetCurrentUser`) are functions of the
table contents. The actions that write (`CreateImpulse`, `UpdateImpulse`, `DeleteImpulse`,
`Register`, `UpdateCurrentUser`) are methods that modify an `AppDbContext`. Each of them
keeps `Valid()`: user ids, usernames and emails are unique, and so are entry ids. Each entry
action also states isolation: for every user other than the caller, the list of entries that
user owns is unchanged.

`[ApiController]` validates the bound body before the action runs. The model puts this first:
an invalid body gives `ValidationProblem` and changes nothing.

In these places the code does less than its names and comments suggest, and the model follows the code:

- `Register` reads `DateTime.UtcNow` twice, once for `CreatedAt` and once for `UpdatedAt`
  (`AuthController.cs:43-44`). The method takes the two readings as separate parameters. So
  `CreatedAt == UpdatedAt` holds exactly when the two readings agree, not always.
- `RegisterDto.Email` declares no length limit, while `User.Email` allows at most 255
  characters. `Dtos.RegisterEmailIsUnbounded` exhibits a register request that passes
  validation with a longer email. `Dtos.ValidRegisterFitsUser` therefore needs the 255 bound
  as a precondition.
- In `UpdateUserDto`, an email or a password sent as `""` fails `[EmailAddress]` or
  `[StringLength(100, MinimumLength = 6)]`. The request is rejected before the action's
  `IsNullOrEmpty` checks run (`Dtos.ValidUpdateUserOnEmpty`,
  `UsersController.ValidUpdateSuppliedWhenSent`). A full name sent as `""` passes validation and
  is then ignored by the action.
- The outcome tags `"yes"`, `"no"` and `"unknown"` appear only in a comment. Nothing enforces
  them: create and update store any string the body sends (`ImpulseEntriesController.CreatedOutcome`).

## Model

| member | source | states |
|---|---|---|
| Claims.CurrentUserId | packages/backend/Controllers/ImpulseEntriesController.cs:23-31 | a missing or empty NameIdentifier claim throws UnauthorizedAccessException("User ID not found in token"); any id it yields is a 32-bit integer |
| Claims.Int32Parse | packages/backend/Controllers/ImpulseEntriesController.cs:30 | int.Parse yields a value in the Int32 range or fails with FormatException or OverflowException |
| Claims.LeadingWhite | packages/backend/Controllers/ImpulseEntriesController.cs:30 | int.Parse skips exactly the maximal run of leading white space |
| Claims.TrailingWhite | packages/backend/Controllers/ImpulseEntriesController.cs:30 | int.Parse skips exactly the maximal run of trailing white space |
| Claims.Int32ParseToString | packages/backend/Controllers/ImpulseEntriesController.cs:30 | parsing the decimal rendering of n gives back n inside the Int32 range and OverflowException outside it |
| Claims.CurrentUserIdOfRenderedId | packages/backend/Controllers/UsersController.cs:23-31 | a claim holding a rendered 32-bit id resolves to exactly that id; a wider number throws OverflowException |
| Claims.CurrentUserIdOfName | packages/backend/Controllers/UsersController.cs:26-30 | a claim with no white space at either end, containing a character that is neither a digit nor a leading sign, throws FormatException |
| Claims.DecimalValue | packages/backend/Controllers/ImpulseEntriesController.cs:30 | the digits of a number read back as that number |
| Store.FirstWhere | packages/backend/Controllers/ImpulseEntriesController.cs:82-83 | FirstOrDefault: no result iff no row matches; otherwise the first matching row |
| Store.AppDbContext.Valid | packages/backend/Controllers/AuthController.cs:27-35 | defines the invariant every writing action keeps: no two users share an id, a username or an email, and no two entries share an id |
| Store.FindByUsername | packages/backend/Controllers/AuthController.cs:70 | defines `Users.FirstOrDefault(u => u.Username == name)` |
| Store.FindUser | packages/backend/Controllers/UsersController.cs:37 | defines `Users.Find(id)`: the first row with that key |
| Store.FindOwnedEntry | packages/backend/Controllers/ImpulseEntriesController.cs:82-83 | defines the owner-scoped `FirstOrDefault(e => e.Id == id && e.UserId == userId)` |
| Store.UsernameTaken | packages/backend/Controllers/AuthController.cs:27 | defines `Users.Any(u => u.Username == name)` |
| Store.EmailTaken | packages/backend/Controllers/AuthController.cs:32 | defines `Users.Any(u => u.Email == email)` |
| Store.EmailTakenByOther | packages/backend/Controllers/UsersController.cs:68 | defines `Users.Any(u => u.Email == email && u.Id != id)` |
| Store.OwnedBy | packages/backend/Controllers/ImpulseEntriesController.cs:41-42 | a user's entries are exactly the stored entries with that UserId |
| Store.OwnedByAppend | packages/backend/Controllers/ImpulseEntriesController.cs:121 | adding an entry owned by someone else leaves a user's entries unchanged |
| Store.OwnedByReplace | packages/backend/Controllers/ImpulseEntriesController.cs:153-161 | overwriting an entry, when neither the old nor the new version belongs to a user, leaves that user's entries unchanged |
| Store.OwnedByRemove | packages/backend/Controllers/ImpulseEntriesController.cs:190-191 | removing someone else's entry leaves a user's entries unchanged |
| Store.RemovedIdIsGone | packages/backend/Controllers/ImpulseEntriesController.cs:190-191 | with unique ids, after removal no entry has the removed id and ids stay unique |
| Store.AppendedIdIsUnique | packages/backend/Controllers/ImpulseEntriesController.cs:109-121 | adding an entry under a fresh Guid keeps ids unique and the earlier rows in place |
| Store.ReplacedIdIsUnique | packages/backend/Controllers/ImpulseEntriesController.cs:153-161 | an in-place update that keeps the id keeps ids unique |
| Store.ReplacedUserIsUnique | packages/backend/Controllers/UsersController.cs:66-73 | overwriting a user with the same id and username, and an email no other user holds, keeps ids, usernames and emails unique |
| Store.AppendedUserIsUnique | packages/backend/Controllers/AuthController.cs:27-47 | adding a user with a fresh id and an untaken username and email keeps all three unique |
| ImpulseEntriesController.Where | packages/backend/Controllers/ImpulseEntriesController.cs:41-57 | the filtered rows hold each selected entry as often as the table does, and no other entry |
| ImpulseEntriesController.Selected | packages/backend/Controllers/ImpulseEntriesController.cs:41-57 | defines the Where clauses: owned by the caller, CreatedAt at or after startDate and at or before endDate when given, and DidAct equal to didAct when didAct is non-empty and not "all" |
| ImpulseEntriesController.InsertNewestFirst | packages/backend/Controllers/ImpulseEntriesController.cs:60 | inserting into a newest-first list keeps it newest first and adds exactly that entry |
| ImpulseEntriesController.PrependNewest | packages/backend/Controllers/ImpulseEntriesController.cs:60 | putting an entry no older than the head in front keeps the list newest first |
| ImpulseEntriesController.InsertBehindHead | packages/backend/Controllers/ImpulseEntriesController.cs:60 | inserting behind a strictly newer head keeps the list newest first and adds exactly that entry |
| ImpulseEntriesController.OrderByCreatedDescending | packages/backend/Controllers/ImpulseEntriesController.cs:59-61 | OrderByDescending(CreatedAt) returns a permutation of its input with CreatedAt non-increasing |
| ImpulseEntriesController.Responses | packages/backend/Controllers/ImpulseEntriesController.cs:63-74 | the projection maps each entry, in order, to its response |
| ImpulseEntriesController.ResponsesCount | packages/backend/Controllers/ImpulseEntriesController.cs:63-74 | each response occurs in the projection as often as its entry occurs in the list |
| ImpulseEntriesController.ListEntries | packages/backend/Controllers/ImpulseEntriesController.cs:40-61 | the listed entries are newest first, all stored and selected, and are exactly the selected multiset |
| ImpulseEntriesController.GetImpulses | packages/backend/Controllers/ImpulseEntriesController.cs:35-75 | a bad claim throws; otherwise the caller's entries within the inclusive date bounds and with the requested outcome (no outcome filter when didAct is null, empty or "all"), newest first, each exactly as often as stored |
| ImpulseEntriesController.GetImpulse | packages/backend/Controllers/ImpulseEntriesController.cs:79-102 | 200 with the entry iff an entry with that id is owned by the caller; otherwise 404 "Impulse entry not found" |
| ImpulseEntriesController.ForeignEntryLooksMissing | packages/backend/Controllers/ImpulseEntriesController.cs:82-88 | another user's entry gets the same 404 as an id that does not exist |
| ImpulseEntriesController.StoredEntryVisible | packages/backend/Controllers/ImpulseEntriesController.cs:82-101 | with unique ids, the owner of a stored entry gets exactly that entry |
| ImpulseEntriesController.CreateImpulse | packages/backend/Controllers/ImpulseEntriesController.cs:106-138 | appends exactly one entry with the fresh id, the caller as owner, the clock, no update time, DidAct = dto.DidAct ?? "unknown", and returns 201 with it; GET then finds it; other users' entries unchanged |
| ImpulseEntriesController.CreatedOutcome | packages/backend/Controllers/ImpulseEntriesController.cs:117 | a created entry has outcome "unknown" iff the body left DidAct out, sent null or sent "unknown"; it is one of the three tags iff the body sent one or none |
| ImpulseEntriesController.ApplyPatch | packages/backend/Controllers/ImpulseEntriesController.cs:153-159 | every non-null field overwrites, every null one keeps its value, Id, UserId and CreatedAt stay, UpdatedAt becomes the clock |
| ImpulseEntriesController.PatchInPlace | packages/backend/Controllers/ImpulseEntriesController.cs:153-161 | writing the patched entry back keeps ids unique, shows the new entry to its owner and leaves every other user's entries unchanged |
| ImpulseEntriesController.UpdateImpulse | packages/backend/Controllers/ImpulseEntriesController.cs:142-175 | 404 with the table unchanged when the caller owns no entry with the id; otherwise that entry patched, every other row untouched, 200 with the new entry |
| ImpulseEntriesController.DeleteImpulse | packages/backend/Controllers/ImpulseEntriesController.cs:179-194 | 404 with the table unchanged when the caller owns no entry with the id; otherwise exactly that row removed, 204, and GET on the id gives 404 |
| AuthController.Login | packages/backend/Controllers/AuthController.cs:68-92 | invalid body gives 400; otherwise 200 with a token and the user's view, or the one 401 "Invalid username or password"; with unique usernames, 200 iff the user exists and the password verifies; nothing is written |
| AuthController.LoginFailuresAreIndistinguishable | packages/backend/Controllers/AuthController.cs:70-75 | an unknown username and a wrong password give identical results |
| AuthController.LoginFindsAppendedUser | packages/backend/Controllers/AuthController.cs:70-91 | a user added under an untaken username logs in with a password that verifies against the stored hash |
| AuthController.Register | packages/backend/Controllers/AuthController.cs:25-65 | invalid body gives 400; a taken username gives "Username already exists" before the email is checked; a taken email gives "Email already exists"; failures leave the table unchanged; success appends one user with Hash(password) and the two clock readings, keeps uniqueness, and a later Login with the same credentials succeeds with the same user view (the token may differ) |
| UsersController.GetCurrentUser | packages/backend/Controllers/UsersController.cs:34-53 | a bad claim throws; 200 with the view iff a user row has the caller's id, otherwise 404 "User not found" |
| UsersController.ApplyUpdate | packages/backend/Controllers/UsersController.cs:72-85 | email replaced only by a non-empty different value; full name and hash only when a non-empty value is sent; UpdatedAt refreshed; Id, Username, CreatedAt kept |
| UsersController.Updated | packages/backend/Controllers/UsersController.cs:66-85 | defines the row after a self-update: a non-empty different email replaces the old one, a non-empty full name replaces the old one, a non-empty password replaces the hash by its hash, UpdatedAt is the clock, and Id, Username and CreatedAt are kept |
| UsersController.UpdateKeepsFullName | packages/backend/Controllers/UsersController.cs:75-83 | an update never clears a full name, a changed full name is non-empty, and the hash changes only when a password is supplied |
| UsersController.ValidUpdateSuppliedWhenSent | packages/backend/Controllers/UsersController.cs:66-83 | once validation has passed, an email or a password counts as supplied exactly when it is sent |
| UsersController.UpdateCurrentUser | packages/backend/Controllers/UsersController.cs:56-98 | invalid body gives 400; a bad claim throws; no row gives 404; an email that another user holds gives 400 "Email already in use" with the table unchanged; otherwise the caller's row updated, other rows untouched, uniqueness kept |
| UsersController.UpdatedStaysValid | packages/backend/Models/User.cs:10-23 | a self-update keeps a user row within the User column constraints, given a non-blank hash and a new email of at most 255 characters |
| Annotations.EmailAddressMeaning | packages/backend/DTOs/UserDtos.cs:12 | [EmailAddress] accepts exactly the strings with one '@' that has characters on both sides |
| Annotations.Required | packages/backend/DTOs/UserDtos.cs:7 | defines [Required] on a string: at least one character that is not white space, so "" and white-space-only strings fail |
| Annotations.StringLength | packages/backend/DTOs/UserDtos.cs:8 | defines [StringLength(max, MinimumLength = min)]: min <= length <= max |
| Annotations.EmailAddress | packages/backend/DTOs/UserDtos.cs:12 | defines [EmailAddress]: the first '@' is also the last one, and it is neither the first nor the last character |
| Dtos.ValidRegister | packages/backend/DTOs/UserDtos.cs:5-21 | defines: a required username of 3..100 characters, a required email-shaped email, a required password of 6..100 characters, and a full name of at most 100 |
| Dtos.ValidLogin | packages/backend/DTOs/UserDtos.cs:23-30 | defines: username and password both required |
| Dtos.ValidUpdateUser | packages/backend/DTOs/UserDtos.cs:32-42 | defines: every field may be left out; a sent email is email-shaped, a sent full name has at most 100 characters, a sent password 6..100 |
| Models.ValidUser | packages/backend/Models/User.cs:10-23 | defines the column constraints: a required username of at most 100 characters, a required email-shaped email of at most 255, a required hash, and a full name of at most 100 |
| Dtos.UserView | packages/backend/DTOs/UserDtos.cs:44-52 | defines the UserResponseDto of a user: Id, Username, Email, FullName, CreatedAt and UpdatedAt copied, the hash left out |
| Dtos.BindUpdate | packages/backend/DTOs/ImpulseEntryDtos.cs:12-19 | defines update binding: a field sent with a value binds to it; an omitted or null field binds to null |
| Dtos.EntryResponse | packages/backend/DTOs/ImpulseEntryDtos.cs:21-32 | defines the ImpulseEntryResponseDto of an entry: every field copied |
| Dtos.ValidRegisterIsValidLogin | packages/backend/DTOs/UserDtos.cs:5-30 | a valid register request carries a username and password that pass login validation |
| Dtos.ValidUpdateUserOnEmpty | packages/backend/DTOs/UserDtos.cs:32-42 | every update field is optional; an empty email or password fails validation, an empty full name passes |
| Dtos.UserViewHidesOnlyTheHash | packages/backend/DTOs/UserDtos.cs:44-52 | two users have the same view iff they differ at most in the password hash |
| Dtos.ValidRegisterFitsUser | packages/backend/DTOs/UserDtos.cs:5-21 | a valid register request with an email of at most 255 characters yields a row within the User column constraints |
| Dtos.RegisterEmailIsUnbounded | packages/backend/DTOs/UserDtos.cs:11-13 | some register request passes validation with an email longer than User.Email's 255 characters |
| Dtos.BindCreate | packages/backend/DTOs/ImpulseEntryDtos.cs:3-10 | the text is copied; an omitted DidAct binds to "unknown"; an omitted or null trigger, emotion or note binds to null, a null DidAct to null; every field sent with a value binds to that value |
| Dtos.UpdateOmittedIsNull | packages/backend/DTOs/ImpulseEntryDtos.cs:12-19 | an omitted update field binds exactly like a field sent as null |
| Dtos.EntryResponseInjective | packages/backend/DTOs/ImpulseEntryDtos.cs:21-32 | the response keeps every entry field: entries with equal responses are equal |
| Models.NewImpulseEntry | packages/backend/Models/ImpulseEntry.cs:3-13 | a new entry keeps its id, owner, creation time and text, gets outcome "unknown" and no update time or optional texts |
| UrlSearchParams.Utf8RoundTrip | packages/shared/src/api-client.ts:99 | decoding the UTF-8 encoding of a string gives the string back |
| UrlSearchParams.FormRoundTrip | packages/shared/src/api-client.ts:99 | percent-decoding the form encoding of a name or value gives it back |
| UrlSearchParams.EncodeBytesHasNoSeparator | packages/shared/src/api-client.ts:99 | an encoded name or value contains neither '&' nor '=' |
| UrlSearchParams.Serialize | packages/shared/src/api-client.ts:99 | the query is empty iff there are no parameters |
| UrlSearchParams.ParseSerialized | packages/shared/src/api-client.ts:99 | parsing the serialized query gives back the parameters, in order |
| SharedClient.ApiClient.constructor | packages/shared/src/api-client.ts:18-20 | a new client holds the base URL and no token |
| SharedClient.ApiClient.SetToken | packages/shared/src/api-client.ts:22-24 | the held token becomes the given one |
| SharedClient.ApiClient.GetToken | packages/shared/src/api-client.ts:26-28 | returns the held token |
| SharedClient.ApiClient.Logout | packages/shared/src/api-client.ts:88-90 | no token is held afterwards |
| SharedClient.ApiClient.Headers | packages/shared/src/api-client.ts:35-42 | Content-Type is JSON unless the caller overrides it; the caller's headers are kept; Authorization is "Bearer " + token when a non-empty token is held, otherwise exactly the caller's value if the caller set it and absent if not |
| SharedClient.ApiClient.BuildRequest | packages/shared/src/api-client.ts:34-42 | the URL is base + endpoint; Authorization is present iff a non-empty token is held, and then is "Bearer " + token |
| SharedClient.ApiClient.Authenticate | packages/shared/src/api-client.ts:59-75 | a POST is sent; a reply's token becomes the held token; on an error the token is unchanged |
| SharedClient.ApiClient.Register | packages/shared/src/api-client.ts:59-66 | POST /api/auth/register; the reply's token is held afterwards, unchanged on an error |
| SharedClient.ApiClient.Login | packages/shared/src/api-client.ts:68-75 | POST /api/auth/login; the reply's token is held afterwards, unchanged on an error |
| SharedClient.ImpulseParams | packages/shared/src/api-client.ts:94-97 | at most three parameters, none without filters, and every name is startDate, endDate or didAct |
| SharedClient.Truthy | packages/shared/src/api-client.ts:40 | defines JavaScript truthiness of an optional string: present and not empty |
| SharedClient.ImpulseParamsOutcome | packages/shared/src/api-client.ts:97 | didAct is sent, verbatim, exactly when it is truthy and not 'all' |
| SharedClient.ImpulseParamsDates | packages/shared/src/api-client.ts:95-96 | each date is sent, verbatim, exactly when it is truthy |
| SharedClient.ImpulseParamsOrder | packages/shared/src/api-client.ts:94-97 | the parameters come in the order startDate, endDate, didAct, each at most once |
| SharedClient.WithQuery | packages/shared/src/api-client.ts:100 | a '?' and the query are appended only when the query is non-empty |
| SharedClient.ListUrlCarriesParams | packages/shared/src/api-client.ts:99-100 | without parameters the URL is the bare endpoint; otherwise the server parses the parameters back, in order, from after the '?' |
| SharedClient.ApiClient.GetImpulses | packages/shared/src/api-client.ts:93-101 | a GET with the client's headers to /api/impulseentries, plus '?' and the serialized parameters when there are any, which parse back to the filters sent |
| SharedClient.Session | packages/shared/src/api-client.ts:40-90 | after a login reply with a non-empty token, a list request carries "Bearer " + token; after logout it carries no Authorization |

## Left out

- BCrypt and JWT internals (salts, signatures, expiry). The hasher and the token issuer are
  parameters. The only property assumed of them is that a password verifies against its own
  hash, and it is stated as a condition (`VerifiesOwnHash`), not an axiom.
  `IAuthService`'s implementation is not part of this model. A real JWT also carries an expiry
  taken from the clock, so two tokens issued for the same user can differ. The model's issuer is a
  pure function of the user row, so the model cannot show two tokens differing; no contract relies
  on two tokens being equal. Likewise the hasher is a pure function, while BCrypt's `HashPassword`
  (`AuthController.cs:41`, `UsersController.cs:82`) salts each call, so in the model re-hashing a
  password gives back the same hash; no contract relies on that either.
- The `[Authorize]` middleware and JWT validation. The model takes the NameIdentifier claim as
  given: `None` when the token has none.
- Entity Framework persistence, change tracking and `async`/`await`. Each table is a sequence held
  by `AppDbContext`, and `SaveChangesAsync` is the assignment of that field. `Register` and
  `UpdateCurrentUser` store an email of any length, although `User.Email` is `[StringLength(255)]`
  (`Dtos.RegisterEmailIsUnbounded`); whether the database then refuses the save depends on its
  configuration, which is not part of this model.
- Referential integrity of `ImpulseEntry.UserId`. By Entity Framework convention the `User`
  navigation property makes it a required foreign key, but `CreateImpulse` appends an entry for any
  claim id that parses, whether or not a user row has that id. A database enforcing the key would
  make the save throw instead. Tokens are issued only to registered users, and users are never
  deleted.
- Database-level unique constraints and collation. `AppDbContext`'s configuration is not part of
  this model. Uniqueness is kept only by the controllers' own checks, with exact string equality.
- Concurrency: two concurrent registrations can both pass the uniqueness checks. Each action is
  modelled as atomic.
- The order of entries with equal `CreatedAt`. SQL leaves it unspecified; the model uses a stable
  sort of store order, and its contracts state only non-increasing `CreatedAt` and the multiset.
- `Guid.NewGuid()` and the database's identity key. Both are parameters with a freshness
  precondition.
- `DateTime.UtcNow`. It is a clock parameter (an `int`), and `Register` takes its two readings.
- Model binding of the query string. `startDate`/`endDate` arrive already parsed as `DateTime?`;
  culture-dependent date formats are not modelled.
- The implicit `[Required]` that nullable reference types add to non-nullable properties (such as
  `CreateImpulseEntryDto.ImpulseText`), and JSON deserialisation errors.
- String lengths. Validation counts UTF-16 code units, while the model counts Unicode scalar
  values. The two differ for characters outside the Basic Multilingual Plane.
- Claims.Int32Parse: culture-specific signs and trailing NUL characters, which `int.Parse` also
  accepts, are not modelled.
- Annotations.EmailAddress: only the '@' position rule is modelled. Any further character
  restriction a framework version adds is not.
- The HTTP transport of `ApiClient.request`: `fetch`, the request body (`JSON.stringify`),
  response parsing, and the error message taken from a failed response. A reply is a parameter:
  the parsed body, or the message the call throws.
- The client's other calls (`getCurrentUser`, `updateCurrentUser`, `getImpulse`,
  `createImpulse`, `updateImpulse`, `deleteImpulse`). They only pick an endpoint and a method
  for `request`, whose header logic `BuildRequest` covers.
- The client's `ImpulseFilters` type. It is imported from `types.ts`, but `types.ts` does not
  declare it. The model uses the three optional string fields `getImpulses` reads.
- URLSearchParams on lone UTF-16 surrogates, which the browser replaces with U+FFFD. Dafny strings
  hold scalar values only.
- The parser beside the serializer. It is a strict inverse, used to state what the server reads
  back; the URL Standard's parser instead substitutes U+FFFD for invalid UTF-8.
- The desktop and mobile screens, the Electron shell and the token persistence in the auth
  contexts. They are UI and I/O.
