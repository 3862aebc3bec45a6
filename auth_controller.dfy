/**
 * api/auth: registration and login. Neither needs a token; both answer with
 * a fresh token and the public view of the user.
 */
module AuthController {
  import opened Wrappers
  import opened Models
  import opened Dtos
  import opened Http
  import opened Security
  import opened Store

  const UsernameExistsMessage: string := "Username already exists"
  const EmailExistsMessage: string := "Email already exists"
  const InvalidCredentialsMessage: string := "Invalid username or password"

  /** POST api/auth/login: one and the same 401 for an unknown username and for a password that
      does not verify; a token and the user's view otherwise. Nothing is written. */
  function Login(users: seq<User>, dto: LoginDto, hasher: PasswordHasher, issueToken: TokenIssuer)
    : (r: ActionResult<AuthResponseDto>)
    ensures !ValidLogin(dto) ==> r == ValidationProblem
    ensures ValidLogin(dto) ==> r.Ok? || r == Unauthorized(InvalidCredentialsMessage)
    ensures ValidLogin(dto) && !UsernameTaken(users, dto.username) ==> r == Unauthorized(InvalidCredentialsMessage)
    ensures r.Ok? ==> exists u :: u in users && u.username == dto.username && hasher.verify(dto.password, u.passwordHash)
                                  && r.value == AuthResponseDto(issueToken(u), UserView(u))
    ensures UniqueUsers(users) && ValidLogin(dto) ==>
      (r.Ok? <==> exists u :: u in users && u.username == dto.username && hasher.verify(dto.password, u.passwordHash))
  {
    if !ValidLogin(dto) then ValidationProblem
    else
      match FindByUsername(users, dto.username)
      case None => Unauthorized(InvalidCredentialsMessage)
      case Some(i) =>
        var user := users[i];
        if !hasher.verify(dto.password, user.passwordHash) then Unauthorized(InvalidCredentialsMessage)
        else
          assert UniqueUsers(users) ==> forall j :: 0 <= j < |users| && users[j].username == dto.username ==> j == i;
          Ok(AuthResponseDto(issueToken(user), UserView(user)))
  }

  /** An unknown username and a wrong password get the very same answer. */
  lemma LoginFailuresAreIndistinguishable(
    users: seq<User>, unknown: LoginDto, wrong: LoginDto, hasher: PasswordHasher, issueToken: TokenIssuer)
    requires UniqueUsers(users) && ValidLogin(unknown) && ValidLogin(wrong)
    requires !UsernameTaken(users, unknown.username)
    requires exists u :: u in users && u.username == wrong.username && !hasher.verify(wrong.password, u.passwordHash)
    ensures Login(users, unknown, hasher, issueToken) == Login(users, wrong, hasher, issueToken)
  {
  }

  /** A user whose username no earlier row holds can log in with a password that verifies. */
  lemma LoginFindsAppendedUser(
    users: seq<User>, u: User, password: string, hasher: PasswordHasher, issueToken: TokenIssuer)
    requires !UsernameTaken(users, u.username)
    requires ValidLogin(LoginDto(u.username, password)) && hasher.verify(password, u.passwordHash)
    ensures Login(users + [u], LoginDto(u.username, password), hasher, issueToken)
            == Ok(AuthResponseDto(issueToken(u), UserView(u)))
  {
    var found := FindByUsername(users + [u], u.username);
    assert (users + [u])[|users|] == u;
    assert found == Some(|users|) by {
      assert forall j :: 0 <= j < |users| ==> (users + [u])[j] == users[j];
    }
  }

  /** POST api/auth/register: rejects a taken username, then a taken email, and otherwise stores
      one new user, with the hash of the password, under the store-assigned key `newId`.
      `createdNow` and `updatedNow` are the two readings of DateTime.UtcNow. */
  method Register(
    db: AppDbContext, dto: RegisterDto, hasher: PasswordHasher, issueToken: TokenIssuer,
    newId: UserId, createdNow: Time, updatedNow: Time)
    returns (r: ActionResult<AuthResponseDto>)
    requires db.Valid()
    requires forall u :: u in db.users ==> u.id != newId
    modifies db
    ensures db.Valid() && db.impulseEntries == old(db.impulseEntries)
    ensures !ValidRegister(dto) ==> r == ValidationProblem
    ensures ValidRegister(dto) && UsernameTaken(old(db.users), dto.username) ==>
      r == BadRequest(UsernameExistsMessage)
    ensures ValidRegister(dto) && !UsernameTaken(old(db.users), dto.username) && EmailTaken(old(db.users), dto.email) ==>
      r == BadRequest(EmailExistsMessage)
    ensures r.Ok? <==>
      ValidRegister(dto) && !UsernameTaken(old(db.users), dto.username) && !EmailTaken(old(db.users), dto.email)
    ensures !r.Ok? ==> db.users == old(db.users)
    ensures r.Ok? ==>
      && |db.users| == |old(db.users)| + 1
      && db.users[..|old(db.users)|] == old(db.users)
      && var u := db.users[|old(db.users)|];
         && u.id == newId && u.username == dto.username && u.email == dto.email
         && u.passwordHash == hasher.hash(dto.password) && u.fullName == dto.fullName
         && u.createdAt == createdNow && u.updatedAt == updatedNow
         && r == Ok(AuthResponseDto(issueToken(u), UserView(u)))
         && (VerifiesOwnHash(hasher) ==>
               var l := Login(db.users, LoginDto(dto.username, dto.password), hasher, issueToken);
               l.Ok? && l.value.user == r.value.user)
  {
    if !ValidRegister(dto) {
      return ValidationProblem;
    }
    if UsernameTaken(db.users, dto.username) {
      return BadRequest(UsernameExistsMessage);
    }
    if EmailTaken(db.users, dto.email) {
      return BadRequest(EmailExistsMessage);
    }
    var user := User(newId, dto.username, dto.email, hasher.hash(dto.password), dto.fullName, createdNow, updatedNow);
    ghost var before := db.users;
    AppendedUserIsUnique(before, user);
    db.users := db.users + [user];
    if VerifiesOwnHash(hasher) {
      LoginFindsAppendedUser(before, user, dto.password, hasher, issueToken);
    }
    var token := issueToken(user);
    r := Ok(AuthResponseDto(token, UserView(user)));
  }
}
