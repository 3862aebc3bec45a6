/**
 * The backend's database context, held in memory: the Users and the
 * ImpulseEntries tables, the keys and uniqueness the controllers maintain,
 * and the lookups (`FirstOrDefault`, `Find`, `Any`) the controllers run.
 */
module Store {
  import opened Wrappers
  import opened Models

  /** No two users share an id, a username or an email. */
  predicate UniqueUsers(users: seq<User>) {
    forall i, j :: 0 <= i < j < |users| ==>
      users[i].id != users[j].id && users[i].username != users[j].username && users[i].email != users[j].email
  }

  /** No two entries share an id. */
  predicate UniqueEntryIds(entries: seq<ImpulseEntry>) {
    forall i, j :: 0 <= i < j < |entries| ==> entries[i].id != entries[j].id
  }

  /** The AppDbContext: two tables, each a sequence of rows in store order. */
  class AppDbContext {
    var users: seq<User>
    var impulseEntries: seq<ImpulseEntry>

    /** The keys are unique and so are usernames and emails. */
    ghost predicate Valid()
      reads this
    {
      UniqueUsers(users) && UniqueEntryIds(impulseEntries)
    }

    constructor ()
      ensures Valid() && users == [] && impulseEntries == []
    {
      users := [];
      impulseEntries := [];
    }
  }

  /** The position of the first row at or after `from` that satisfies `p`: FirstOrDefault. */
  function FirstWhere<T>(s: seq<T>, p: T -> bool, from: nat := 0): (r: Option<nat>)
    requires from <= |s|
    ensures r.None? <==> forall j :: from <= j < |s| ==> !p(s[j])
    ensures r.Some? ==> from <= r.value < |s| && p(s[r.value]) && forall j :: from <= j < r.value ==> !p(s[j])
    decreases |s| - from
  {
    if from == |s| then None
    else if p(s[from]) then Some(from)
    else FirstWhere(s, p, from + 1)
  }

  /** `Users.FirstOrDefault(u => u.Username == name)`. */
  function FindByUsername(users: seq<User>, name: string): Option<nat> {
    FirstWhere(users, (u: User) => u.username == name)
  }

  /** `Users.Find(id)`: the row with that key. */
  function FindUser(users: seq<User>, id: UserId): Option<nat> {
    FirstWhere(users, (u: User) => u.id == id)
  }

  /** `ImpulseEntries.FirstOrDefault(e => e.Id == id && e.UserId == userId)`. */
  function FindOwnedEntry(entries: seq<ImpulseEntry>, id: Guid, userId: UserId): Option<nat> {
    FirstWhere(entries, (e: ImpulseEntry) => e.id == id && e.userId == userId)
  }

  /** `Users.Any(u => u.Username == name)`. */
  predicate UsernameTaken(users: seq<User>, name: string) {
    exists i :: 0 <= i < |users| && users[i].username == name
  }

  /** `Users.Any(u => u.Email == email)`. */
  predicate EmailTaken(users: seq<User>, email: string) {
    exists i :: 0 <= i < |users| && users[i].email == email
  }

  /** `Users.Any(u => u.Email == email && u.Id != id)`. */
  predicate EmailTakenByOther(users: seq<User>, email: string, id: UserId) {
    exists i :: 0 <= i < |users| && users[i].email == email && users[i].id != id
  }

  /** The entries of one user, in store order: what that user can see. */
  function OwnedBy(entries: seq<ImpulseEntry>, userId: UserId): (r: seq<ImpulseEntry>)
    ensures forall e :: e in r <==> e in entries && e.userId == userId
  {
    if entries == [] then []
    else (if entries[0].userId == userId then [entries[0]] else []) + OwnedBy(entries[1..], userId)
  }

  /** Appending another user's entry leaves a user's entries as they were. */
  lemma {:induction false} OwnedByAppend(entries: seq<ImpulseEntry>, e: ImpulseEntry, userId: UserId)
    requires e.userId != userId
    ensures OwnedBy(entries + [e], userId) == OwnedBy(entries, userId)
  {
    if entries == [] {
      assert OwnedBy([e], userId) == [] + OwnedBy([], userId);
    } else {
      assert (entries + [e])[1..] == entries[1..] + [e];
      OwnedByAppend(entries[1..], e, userId);
    }
  }

  /** Replacing an entry of another user by one of another user leaves a user's entries as they were. */
  lemma {:induction false} OwnedByReplace(entries: seq<ImpulseEntry>, i: nat, e: ImpulseEntry, userId: UserId)
    requires i < |entries| && entries[i].userId != userId && e.userId != userId
    ensures OwnedBy(entries[i := e], userId) == OwnedBy(entries, userId)
  {
    if i > 0 {
      assert entries[i := e][1..] == entries[1..][i - 1 := e];
      OwnedByReplace(entries[1..], i - 1, e, userId);
    } else {
      assert entries[i := e][1..] == entries[1..];
    }
  }

  /** Removing an entry of another user leaves a user's entries as they were. */
  lemma {:induction false} OwnedByRemove(entries: seq<ImpulseEntry>, i: nat, userId: UserId)
    requires i < |entries| && entries[i].userId != userId
    ensures OwnedBy(entries[..i] + entries[i + 1..], userId) == OwnedBy(entries, userId)
  {
    if i > 0 {
      var rest := entries[1..];
      assert (entries[..i] + entries[i + 1..])[1..] == rest[..i - 1] + rest[i..];
      OwnedByRemove(rest, i - 1, userId);
    } else {
      assert entries[..i] + entries[i + 1..] == entries[1..];
    }
  }

  /** With unique keys, an entry removed by position leaves no entry with its id behind. */
  lemma RemovedIdIsGone(entries: seq<ImpulseEntry>, i: nat)
    requires UniqueEntryIds(entries) && i < |entries|
    ensures UniqueEntryIds(entries[..i] + entries[i + 1..])
    ensures forall e :: e in entries[..i] + entries[i + 1..] ==> e.id != entries[i].id
  {
    var rest := entries[..i] + entries[i + 1..];
    forall j | 0 <= j < |rest| ensures rest[j] == entries[if j < i then j else j + 1] { }
  }

  /** Appending a row under a fresh id keeps ids unique and the earlier rows where they were. */
  lemma AppendedIdIsUnique(entries: seq<ImpulseEntry>, e: ImpulseEntry)
    requires UniqueEntryIds(entries)
    requires forall x :: x in entries ==> x.id != e.id
    ensures UniqueEntryIds(entries + [e])
    ensures (entries + [e])[..|entries|] == entries
  {
    var grown := entries + [e];
    forall i, j | 0 <= i < j < |grown| ensures grown[i].id != grown[j].id {
      if j == |entries| {
        assert grown[i] in entries;
      }
    }
  }

  /** Overwriting a row with one that keeps its id keeps ids unique. */
  lemma ReplacedIdIsUnique(entries: seq<ImpulseEntry>, i: nat, e: ImpulseEntry)
    requires UniqueEntryIds(entries) && i < |entries| && e.id == entries[i].id
    ensures UniqueEntryIds(entries[i := e])
  {
  }

  /** Overwriting a user row keeps the keys unique when it keeps the id and the username, and
      takes an email no other user holds. */
  lemma ReplacedUserIsUnique(users: seq<User>, i: nat, u: User)
    requires UniqueUsers(users) && i < |users|
    requires u.id == users[i].id && u.username == users[i].username
    requires u.email == users[i].email || !EmailTakenByOther(users, u.email, u.id)
    ensures UniqueUsers(users[i := u])
  {
    var after := users[i := u];
    forall j, k | 0 <= j < k < |after|
      ensures after[j].id != after[k].id && after[j].username != after[k].username && after[j].email != after[k].email
    {
      if j == i || k == i {
        var other := if j == i then k else j;
        assert after[other] == users[other];
        assert users[other].id != users[i].id;
      }
    }
  }

  /** Appending a user under a fresh id, with a username and an email no row holds, keeps the
      keys unique and the earlier rows where they were. */
  lemma AppendedUserIsUnique(users: seq<User>, u: User)
    requires UniqueUsers(users)
    requires forall x :: x in users ==> x.id != u.id
    requires !UsernameTaken(users, u.username) && !EmailTaken(users, u.email)
    ensures UniqueUsers(users + [u])
    ensures (users + [u])[..|users|] == users
  {
    var grown := users + [u];
    forall i, j | 0 <= i < j < |grown|
      ensures grown[i].id != grown[j].id && grown[i].username != grown[j].username && grown[i].email != grown[j].email
    {
      if j == |users| {
        assert grown[i] == users[i];
      }
    }
  }
}
