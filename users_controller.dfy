/**
 * api/users/me: the caller reads and edits their own account. Email, full
 * name and password change only when a non-empty value is sent; the email
 * is refused when another user holds it, so emails stay unique.
 */
module UsersController {
  import opened Wrappers
  import opened Models
  import opened Dtos
  import opened Http
  import opened Claims
  import opened Security
  import opened Store
  import opened Annotations

  const UserNotFoundMessage: string := "User not found"
  const EmailInUseMessage: string := "Email already in use"

  /** GET api/users/me: the caller's public view, or 404 when no row has the caller's id. */
  function GetCurrentUser(users: seq<User>, claim: Option<string>): (r: ActionResult<UserResponseDto>)
    ensures CurrentUserId(claim).Failure? ==> r == Thrown(CurrentUserId(claim).error)
    ensures CurrentUserId(claim).Success? ==>
      var userId := CurrentUserId(claim).value;
      && (r.Ok? <==> exists u :: u in users && u.id == userId)
      && (!r.Ok? ==> r == NotFound(UserNotFoundMessage))
      && (r.Ok? ==> exists u :: u in users && u.id == userId && r.value == UserView(u))
  {
    match CurrentUserId(claim)
    case Failure(fault) => Thrown(fault)
    case Success(userId) =>
      match FindUser(users, userId)
      case None => NotFound(UserNotFoundMessage)
      case Some(i) => Ok(UserView(users[i]))
  }

  /** `!string.IsNullOrEmpty(s)`. */
  predicate Supplied(s: Option<string>) {
    s.Some? && s.value != ""
  }

  /** Whether the request asks for a new email: a non-empty one that differs from the stored one. */
  predicate ChangesEmail(before: User, dto: UpdateUserDto) {
    Supplied(dto.email) && dto.email.value != before.email
  }

  /** The user row after a successful self-update at time `now`. */
  predicate Updated(before: User, after: User, dto: UpdateUserDto, hasher: PasswordHasher, now: Time) {
    && after.id == before.id && after.username == before.username && after.createdAt == before.createdAt
    && after.email == (if ChangesEmail(before, dto) then dto.email.value else before.email)
    && after.fullName == (if Supplied(dto.fullName) then dto.fullName else before.fullName)
    && after.passwordHash == (if Supplied(dto.password) then hasher.hash(dto.password.value) else before.passwordHash)
    && after.updatedAt == now
  }

  /** An update never clears the full name, and a changed full name is a non-empty one. */
  lemma UpdateKeepsFullName(before: User, after: User, dto: UpdateUserDto, hasher: PasswordHasher, now: Time)
    requires Updated(before, after, dto, hasher, now)
    ensures before.fullName.Some? ==> after.fullName.Some?
    ensures after.fullName != before.fullName ==> after.fullName.Some? && after.fullName.value != ""
    ensures after.passwordHash != before.passwordHash ==> Supplied(dto.password)
  {
  }

  /** Under validation, an email or a password is supplied exactly when it is sent at all: the
      empty string never reaches the action. */
  lemma ValidUpdateSuppliedWhenSent(dto: UpdateUserDto)
    requires ValidUpdateUser(dto)
    ensures Supplied(dto.email) <==> dto.email.Some?
    ensures Supplied(dto.password) <==> dto.password.Some?
  {
    ValidUpdateUserOnEmpty(dto);
  }

  /** A self-update keeps a valid row valid, provided a new hash is non-blank and a new email fits
      User.Email's 255 characters (UpdateUserDto declares no length for it). */
  lemma UpdatedStaysValid(before: User, after: User, dto: UpdateUserDto, hasher: PasswordHasher, now: Time)
    requires ValidUser(before) && ValidUpdateUser(dto)
    requires Updated(before, after, dto, hasher, now)
    requires Supplied(dto.password) ==> Required(hasher.hash(dto.password.value))
    requires ChangesEmail(before, dto) ==> |dto.email.value| <= 255
    ensures ValidUser(after)
  {
    if ChangesEmail(before, dto) {
      var e := dto.email.value;
      var at := IndexOf(e, '@');
      assert e[at] == '@' && !IsWhiteSpace(e[at]);
    }
  }

  /** PUT api/users/me: edits the caller's row in place. */
  method UpdateCurrentUser(db: AppDbContext, claim: Option<string>, dto: UpdateUserDto, hasher: PasswordHasher, now: Time)
    returns (r: ActionResult<UserResponseDto>)
    requires db.Valid()
    modifies db
    ensures db.Valid() && db.impulseEntries == old(db.impulseEntries)
    ensures !ValidUpdateUser(dto) ==> r == ValidationProblem && db.users == old(db.users)
    ensures ValidUpdateUser(dto) && CurrentUserId(claim).Failure? ==>
      r == Thrown(CurrentUserId(claim).error) && db.users == old(db.users)
    ensures ValidUpdateUser(dto) && CurrentUserId(claim).Success? ==>
      var userId := CurrentUserId(claim).value;
      match FindUser(old(db.users), userId)
      case None =>
        r == NotFound(UserNotFoundMessage) && db.users == old(db.users)
      case Some(i) =>
        var before := old(db.users)[i];
        if ChangesEmail(before, dto) && EmailTakenByOther(old(db.users), dto.email.value, userId) then
          r == BadRequest(EmailInUseMessage) && db.users == old(db.users)
        else
          && |db.users| == |old(db.users)|
          && before.id == userId
          && Updated(before, db.users[i], dto, hasher, now)
          && (forall j :: 0 <= j < |db.users| && j != i ==> db.users[j] == old(db.users)[j])
          && r == Ok(UserView(db.users[i]))
  {
    if !ValidUpdateUser(dto) {
      return ValidationProblem;
    }
    var userId := CurrentUserId(claim);
    if userId.Failure? {
      return Thrown(userId.error);
    }
    var found := FindUser(db.users, userId.value);
    if found.None? {
      return NotFound(UserNotFoundMessage);
    }
    var i := found.value;
    var user := db.users[i];
    if ChangesEmail(user, dto) && EmailTakenByOther(db.users, dto.email.value, userId.value) {
      return BadRequest(EmailInUseMessage);
    }
    assert user.id == userId.value;
    user := ApplyUpdate(user, dto, hasher, now);
    assert user.email == db.users[i].email || !EmailTakenByOther(db.users, user.email, user.id);
    ReplacedUserIsUnique(db.users, i, user);
    db.users := db.users[i := user];
    r := Ok(UserView(user));
  }

  /** The field assignments of the self-update, once the email has been accepted. */
  method ApplyUpdate(before: User, dto: UpdateUserDto, hasher: PasswordHasher, now: Time) returns (user: User)
    ensures Updated(before, user, dto, hasher, now)
  {
    user := before;
    if dto.email.Some? && dto.email.value != "" && dto.email.value != user.email {
      user := user.(email := dto.email.value);
    }
    if dto.fullName.Some? && dto.fullName.value != "" {
      user := user.(fullName := dto.fullName);
    }
    if dto.password.Some? && dto.password.value != "" {
      user := user.(passwordHash := hasher.hash(dto.password.value));
    }
    user := user.(updatedAt := now);
  }
}
