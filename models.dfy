/**
 * The two entities of the backend's store: a registered user and one
 * impulse entry owned by a user.
 */
module Models {
  import opened Wrappers
  import opened Annotations

  /** A DateTime value (UTC); only its order matters to the model. */
  type Time = int

  /** The Guid key of an impulse entry. */
  type Guid = nat

  /** The integer key of a user. */
  type UserId = int

  /** A row of the Users table. */
  datatype User = User(
    id: UserId,
    username: string,
    email: string,
    passwordHash: string,
    fullName: Option<string>,
    createdAt: Time,
    updatedAt: Time)

  /** The column constraints declared on User: a required username of at most 100 characters,
      a required, email-shaped email of at most 255, a required hash and an optional full name
      of at most 100. */
  predicate ValidUser(u: User) {
    && Required(u.username) && StringLength(u.username, 100, 0)
    && Required(u.email) && EmailAddress(u.email) && StringLength(u.email, 255, 0)
    && Required(u.passwordHash)
    && OptStringLength(u.fullName, 100, 0)
  }

  /** The outcome tag an entry gets when none is given. */
  const DefaultDidAct: string := "unknown"

  /** The outcome tags the entry's comment names; nothing in the backend enforces them. */
  const OutcomeTags: set<string> := {"yes", "no", "unknown"}

  /** A row of the ImpulseEntries table, owned by the user `userId`. */
  datatype ImpulseEntry = ImpulseEntry(
    id: Guid,
    userId: UserId,
    createdAt: Time,
    updatedAt: Option<Time>,
    impulseText: string,
    trigger: Option<string>,
    emotion: Option<string>,
    didAct: string,
    notes: Option<string>)

  /** `new ImpulseEntry { Id, UserId, CreatedAt, ImpulseText }`: the property initialisers give
      the outcome "unknown", the optional texts and the update time stay null. */
  function NewImpulseEntry(id: Guid, userId: UserId, createdAt: Time, impulseText: string): (e: ImpulseEntry)
    ensures e.id == id && e.userId == userId && e.createdAt == createdAt && e.impulseText == impulseText
    ensures e.didAct == DefaultDidAct && e.didAct in OutcomeTags
    ensures e.updatedAt.None? && e.trigger.None? && e.emotion.None? && e.notes.None?
  {
    ImpulseEntry(id, userId, createdAt, None, impulseText, None, None, DefaultDidAct, None)
  }
}
