/**
 * The request and response bodies of the backend, with the validation
 * attributes declared on them and the projections the controllers use to
 * turn entities into responses.
 */
module Dtos {
  import opened Wrappers
  import opened Annotations
  import opened Models

  // ---------------------------------------------------------------- users

  /** POST api/auth/register. */
  datatype RegisterDto = RegisterDto(username: string, email: string, password: string, fullName: Option<string>)

  /** The attributes on RegisterDto: a required username of 3..100 characters, a required
      email-shaped email, a required password of 6..100 characters, a full name of at most 100. */
  predicate ValidRegister(d: RegisterDto) {
    && Required(d.username) && StringLength(d.username, 100, 3)
    && Required(d.email) && EmailAddress(d.email)
    && Required(d.password) && StringLength(d.password, 100, 6)
    && OptStringLength(d.fullName, 100, 0)
  }

  /** POST api/auth/login. */
  datatype LoginDto = LoginDto(username: string, password: string)

  /** The attributes on LoginDto: both fields required. */
  predicate ValidLogin(d: LoginDto) {
    Required(d.username) && Required(d.password)
  }

  /** PUT api/users/me: every field may be left out. */
  datatype UpdateUserDto = UpdateUserDto(email: Option<string>, fullName: Option<string>, password: Option<string>)

  /** The attributes on UpdateUserDto: a supplied email must be email-shaped, a supplied full name
      at most 100 characters, a supplied password 6..100 characters. */
  predicate ValidUpdateUser(d: UpdateUserDto) {
    && OptEmailAddress(d.email)
    && OptStringLength(d.fullName, 100, 0)
    && OptStringLength(d.password, 100, 6)
  }

  /** A request that passes register validation carries a username and password that pass
      login validation. */
  lemma ValidRegisterIsValidLogin(d: RegisterDto)
    requires ValidRegister(d)
    ensures ValidLogin(LoginDto(d.username, d.password))
  {
  }

  /** An email or a password sent as "" fails validation, while a full name sent as "" passes;
      an update that leaves every field out is valid. */
  lemma ValidUpdateUserOnEmpty(d: UpdateUserDto)
    ensures d.email == Some("") || d.password == Some("") ==> !ValidUpdateUser(d)
    ensures d.email.None? && d.password.None? && d.fullName == Some("") ==> ValidUpdateUser(d)
    ensures ValidUpdateUser(UpdateUserDto(None, None, None))
  {
  }

  /** The public view of a user: it has no field for the password or its hash. */
  datatype UserResponseDto = UserResponseDto(
    id: UserId, username: string, email: string, fullName: Option<string>, createdAt: Time, updatedAt: Time)

  /** The body of a successful register or login. */
  datatype AuthResponseDto = AuthResponseDto(token: string, user: UserResponseDto)

  /** `new UserResponseDto { ... }` as all three user-facing actions build it. */
  function UserView(u: User): UserResponseDto {
    UserResponseDto(u.id, u.username, u.email, u.fullName, u.createdAt, u.updatedAt)
  }

  /** The view does not depend on the stored hash, and it keeps every other field. */
  lemma UserViewHidesOnlyTheHash(u: User, w: User)
    ensures UserView(u) == UserView(w) <==> u.(passwordHash := w.passwordHash) == w
  {
  }

  /** Every field a valid register request supplies fits its User column. The email is the
      exception: RegisterDto declares no length for it, while User.Email allows at most 255. */
  lemma ValidRegisterFitsUser(d: RegisterDto, id: UserId, hash: string, created: Time, updated: Time)
    requires ValidRegister(d) && Required(hash)
    requires |d.email| <= 255
    ensures ValidUser(User(id, d.username, d.email, hash, d.fullName, created, updated))
  {
  }

  /** A register request that passes validation with an email longer than User.Email's 255. */
  lemma RegisterEmailIsUnbounded()
    ensures exists d :: ValidRegister(d) && |d.email| > 255
  {
    var email := "a@" + seq(254, _ => 'b');
    assert forall j :: 2 <= j < |email| ==> email[j] == 'b';
    assert IndexOf(email, '@') == 1;
    assert LastIndexOf(email, '@') == 1;
    var d := RegisterDto("alice", email, "secret1", None);
    assert !IsWhiteSpace(d.username[0]) && !IsWhiteSpace(d.email[0]) && !IsWhiteSpace(d.password[0]);
    assert ValidRegister(d);
  }

  // -------------------------------------------------------------- entries

  /** A property of a JSON request body: left out, given as null, or given a value. */
  datatype JsonField<+T> = Omitted | Null | Present(value: T)

  /** The JSON object posted to create an entry. */
  datatype CreateImpulseEntryJson = CreateImpulseEntryJson(
    impulseText: string,
    trigger: JsonField<string>,
    emotion: JsonField<string>,
    didAct: JsonField<string>,
    notes: JsonField<string>)

  /** POST api/impulseentries, after binding. */
  datatype CreateImpulseEntryDto = CreateImpulseEntryDto(
    impulseText: string,
    trigger: Option<string>,
    emotion: Option<string>,
    didAct: Option<string>,
    notes: Option<string>)

  /** The property a binder writes: the initialiser's value when the JSON leaves it out,
      otherwise what the JSON says. */
  function Bind(f: JsonField<string>, initial: Option<string>): Option<string> {
    match f
    case Omitted => initial
    case Null => None
    case Present(v) => Some(v)
  }

  /** Binding a create body: DidAct is initialised to "unknown", the other optional texts to null. */
  function BindCreate(j: CreateImpulseEntryJson): (d: CreateImpulseEntryDto)
    ensures d.impulseText == j.impulseText
    ensures j.didAct.Omitted? ==> d.didAct == Some(DefaultDidAct)
    ensures j.didAct.Null? ==> d.didAct.None?
    ensures j.trigger.Omitted? || j.trigger.Null? ==> d.trigger.None?
    ensures j.emotion.Omitted? || j.emotion.Null? ==> d.emotion.None?
    ensures j.notes.Omitted? || j.notes.Null? ==> d.notes.None?
    ensures j.didAct.Present? ==> d.didAct == Some(j.didAct.value)
    ensures j.trigger.Present? ==> d.trigger == Some(j.trigger.value)
    ensures j.emotion.Present? ==> d.emotion == Some(j.emotion.value)
    ensures j.notes.Present? ==> d.notes == Some(j.notes.value)
  {
    CreateImpulseEntryDto(
      j.impulseText, Bind(j.trigger, None), Bind(j.emotion, None),
      Bind(j.didAct, Some(DefaultDidAct)), Bind(j.notes, None))
  }

  /** The JSON object put to update an entry. */
  datatype UpdateImpulseEntryJson = UpdateImpulseEntryJson(
    impulseText: JsonField<string>,
    trigger: JsonField<string>,
    emotion: JsonField<string>,
    didAct: JsonField<string>,
    notes: JsonField<string>)

  /** PUT api/impulseentries/{id}, after binding: null means "not provided". */
  datatype UpdateImpulseEntryDto = UpdateImpulseEntryDto(
    impulseText: Option<string>,
    trigger: Option<string>,
    emotion: Option<string>,
    didAct: Option<string>,
    notes: Option<string>)

  /** Binding an update body: no property has an initialiser. */
  function BindUpdate(j: UpdateImpulseEntryJson): UpdateImpulseEntryDto {
    UpdateImpulseEntryDto(
      Bind(j.impulseText, None), Bind(j.trigger, None), Bind(j.emotion, None),
      Bind(j.didAct, None), Bind(j.notes, None))
  }

  /** An update body cannot tell a field left out from a field sent as null: both bind to null. */
  lemma UpdateOmittedIsNull(j: UpdateImpulseEntryJson)
    ensures BindUpdate(j) == BindUpdate(j.(
      impulseText := if j.impulseText.Omitted? then Null else j.impulseText,
      trigger := if j.trigger.Omitted? then Null else j.trigger,
      emotion := if j.emotion.Omitted? then Null else j.emotion,
      didAct := if j.didAct.Omitted? then Null else j.didAct,
      notes := if j.notes.Omitted? then Null else j.notes))
  {
  }

  /** An entry as the API returns it: text and outcome always present, the update time nullable. */
  datatype ImpulseEntryResponseDto = ImpulseEntryResponseDto(
    id: Guid,
    userId: UserId,
    createdAt: Time,
    updatedAt: Option<Time>,
    impulseText: string,
    trigger: Option<string>,
    emotion: Option<string>,
    didAct: string,
    notes: Option<string>)

  /** `new ImpulseEntryResponseDto { ... }` as every entry action builds it. */
  function EntryResponse(e: ImpulseEntry): ImpulseEntryResponseDto {
    ImpulseEntryResponseDto(e.id, e.userId, e.createdAt, e.updatedAt, e.impulseText, e.trigger, e.emotion, e.didAct, e.notes)
  }

  /** Two entries with the same response are the same entry: the response loses nothing. */
  lemma EntryResponseInjective(e: ImpulseEntry, f: ImpulseEntry)
    ensures EntryResponse(e) == EntryResponse(f) ==> e == f
  {
  }
}
