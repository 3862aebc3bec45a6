/**
 * api/impulseentries: listing, reading, creating, updating and deleting the
 * caller's impulse entries. Every action first resolves the caller's id from
 * the token's claim; every query is restricted to entries owned by that id,
 * so an entry of another user answers exactly like a missing one.
 */
module ImpulseEntriesController {
  import opened Wrappers
  import opened Models
  import opened Dtos
  import opened Http
  import opened Claims
  import opened Store

  const EntryNotFoundMessage: string := "Impulse entry not found"

  // ------------------------------------------------------------------ list

  /** The query string of GET api/impulseentries, after binding. */
  datatype ListQuery = ListQuery(startDate: Option<Time>, endDate: Option<Time>, didAct: Option<string>)

  /** `!string.IsNullOrEmpty(didAct) && didAct != "all"`: whether the outcome filter applies. */
  predicate FiltersOutcome(didAct: Option<string>) {
    didAct.Some? && didAct.value != "" && didAct.value != "all"
  }

  /** The Where clauses of the list query: owned by the caller, created within the inclusive
      bounds that are given, and with the requested outcome when one is requested. */
  predicate Selected(e: ImpulseEntry, userId: UserId, q: ListQuery) {
    && e.userId == userId
    && (q.startDate.Some? ==> q.startDate.value <= e.createdAt)
    && (q.endDate.Some? ==> e.createdAt <= q.endDate.value)
    && (FiltersOutcome(q.didAct) ==> e.didAct == q.didAct.value)
  }

  /** The filtered rows, in store order. */
  function Where(entries: seq<ImpulseEntry>, userId: UserId, q: ListQuery): (r: seq<ImpulseEntry>)
    ensures forall e :: multiset(r)[e] == if Selected(e, userId, q) then multiset(entries)[e] else 0
  {
    if entries == [] then []
    else
      assert entries == [entries[0]] + entries[1..];
      (if Selected(entries[0], userId, q) then [entries[0]] else []) + Where(entries[1..], userId, q)
  }

  predicate NewestFirst(s: seq<ImpulseEntry>) {
    forall i, j :: 0 <= i < j < |s| ==> s[i].createdAt >= s[j].createdAt
  }

  /** Places `e` before the first entry that is not newer than it. */
  function InsertNewestFirst(e: ImpulseEntry, s: seq<ImpulseEntry>): (r: seq<ImpulseEntry>)
    requires NewestFirst(s)
    ensures NewestFirst(r) && multiset(r) == multiset(s) + multiset{e}
  {
    if s == [] then [e]
    else if e.createdAt >= s[0].createdAt then
      PrependNewest(e, s);
      [e] + s
    else
      var rest := InsertNewestFirst(e, s[1..]);
      InsertBehindHead(e, s, rest);
      [s[0]] + rest
  }

  /** A sequence stays newest first when an entry no older than all of it goes in front. */
  lemma PrependNewest(x: ImpulseEntry, s: seq<ImpulseEntry>)
    requires NewestFirst(s) && (s != [] ==> s[0].createdAt <= x.createdAt)
    ensures NewestFirst([x] + s)
  {
    var r := [x] + s;
    forall i, j | 0 <= i < j < |r| ensures r[i].createdAt >= r[j].createdAt {
      assert r[j] == s[j - 1];
      if i > 0 {
        assert r[i] == s[i - 1];
      }
    }
  }

  /** The step of the insertion behind the head: the head stays in front of the rest. */
  lemma InsertBehindHead(e: ImpulseEntry, s: seq<ImpulseEntry>, rest: seq<ImpulseEntry>)
    requires NewestFirst(s) && s != [] && e.createdAt < s[0].createdAt
    requires NewestFirst(rest) && multiset(rest) == multiset(s[1..]) + multiset{e}
    ensures NewestFirst([s[0]] + rest)
    ensures multiset([s[0]] + rest) == multiset(s) + multiset{e}
  {
    assert s == [s[0]] + s[1..];
    if rest != [] {
      var x := rest[0];
      assert x in multiset(rest);
      if x != e {
        assert x in multiset(s[1..]);
        var k :| 0 <= k < |s[1..]| && s[1..][k] == x;
        assert s[k + 1] == x;
      }
    }
    PrependNewest(s[0], rest);
  }

  /** `OrderByDescending(e => e.CreatedAt)`: a stable sort, newest first. */
  function OrderByCreatedDescending(s: seq<ImpulseEntry>): (r: seq<ImpulseEntry>)
    ensures NewestFirst(r) && multiset(r) == multiset(s)
  {
    if s == [] then []
    else
      assert s == [s[0]] + s[1..];
      InsertNewestFirst(s[0], OrderByCreatedDescending(s[1..]))
  }

  /** `impulses.Select(e => new ImpulseEntryResponseDto { ... })`. */
  function Responses(s: seq<ImpulseEntry>): (r: seq<ImpulseEntryResponseDto>)
    ensures |r| == |s| && forall i :: 0 <= i < |s| ==> r[i] == EntryResponse(s[i])
  {
    if s == [] then [] else [EntryResponse(s[0])] + Responses(s[1..])
  }

  lemma {:induction false} ResponsesCount(s: seq<ImpulseEntry>, e: ImpulseEntry)
    ensures multiset(Responses(s))[EntryResponse(e)] == multiset(s)[e]
  {
    if s != [] {
      assert s == [s[0]] + s[1..];
      ResponsesCount(s[1..], e);
    }
  }

  /** The entries GetImpulses lists for `userId`, before projection. */
  function ListEntries(entries: seq<ImpulseEntry>, userId: UserId, q: ListQuery): (r: seq<ImpulseEntry>)
    ensures NewestFirst(r)
    ensures forall i :: 0 <= i < |r| ==> Selected(r[i], userId, q) && r[i] in entries
    ensures forall e :: multiset(r)[e] == if Selected(e, userId, q) then multiset(entries)[e] else 0
  {
    var r := OrderByCreatedDescending(Where(entries, userId, q));
    assert forall i :: 0 <= i < |r| ==> r[i] in multiset(r);
    r
  }

  /** GET api/impulseentries: exactly the caller's entries that pass the filters, each once per
      stored copy, newest first. */
  function GetImpulses(entries: seq<ImpulseEntry>, claim: Option<string>, q: ListQuery)
    : (r: ActionResult<seq<ImpulseEntryResponseDto>>)
    ensures CurrentUserId(claim).Failure? ==> r == Thrown(CurrentUserId(claim).error)
    ensures CurrentUserId(claim).Success? ==> r.Ok?
    ensures r.Ok? ==>
      var userId := CurrentUserId(claim).value;
      && (forall i :: 0 <= i < |r.value| ==>
            && r.value[i].userId == userId
            && (q.startDate.Some? ==> q.startDate.value <= r.value[i].createdAt)
            && (q.endDate.Some? ==> r.value[i].createdAt <= q.endDate.value)
            && (FiltersOutcome(q.didAct) ==> r.value[i].didAct == q.didAct.value))
      && (forall i, j :: 0 <= i < j < |r.value| ==> r.value[i].createdAt >= r.value[j].createdAt)
      && (forall i :: 0 <= i < |r.value| ==> exists e :: e in entries && r.value[i] == EntryResponse(e))
      && (forall e :: multiset(r.value)[EntryResponse(e)] ==
            if Selected(e, userId, q) then multiset(entries)[e] else 0)
  {
    match CurrentUserId(claim)
    case Failure(fault) => Thrown(fault)
    case Success(userId) =>
      var listed := ListEntries(entries, userId, q);
      var r := Responses(listed);
      assert forall e :: multiset(r)[EntryResponse(e)] == multiset(listed)[e] by {
        forall e ensures multiset(r)[EntryResponse(e)] == multiset(listed)[e] { ResponsesCount(listed, e); }
      }
      Ok(r)
  }

  // ------------------------------------------------------------------- get

  /** GET api/impulseentries/{id}: the entry when it exists and the caller owns it, otherwise
      404 whether it is missing or someone else's. */
  function GetImpulse(entries: seq<ImpulseEntry>, claim: Option<string>, id: Guid)
    : (r: ActionResult<ImpulseEntryResponseDto>)
    ensures CurrentUserId(claim).Failure? ==> r == Thrown(CurrentUserId(claim).error)
    ensures CurrentUserId(claim).Success? ==>
      var userId := CurrentUserId(claim).value;
      && (r.Ok? <==> exists e :: e in entries && e.id == id && e.userId == userId)
      && (!r.Ok? ==> r == NotFound(EntryNotFoundMessage))
      && (r.Ok? ==> exists e :: e in entries && e.id == id && e.userId == userId && r.value == EntryResponse(e))
  {
    match CurrentUserId(claim)
    case Failure(fault) => Thrown(fault)
    case Success(userId) =>
      match FindOwnedEntry(entries, id, userId)
      case None => NotFound(EntryNotFoundMessage)
      case Some(i) => Ok(EntryResponse(entries[i]))
  }

  /** An entry of another user is answered exactly like an id that does not exist. */
  lemma ForeignEntryLooksMissing(entries: seq<ImpulseEntry>, claim: Option<string>, id: Guid, missing: Guid)
    requires UniqueEntryIds(entries) && CurrentUserId(claim).Success?
    requires exists e :: e in entries && e.id == id && e.userId != CurrentUserId(claim).value
    requires forall e :: e in entries ==> e.id != missing
    ensures GetImpulse(entries, claim, id) == GetImpulse(entries, claim, missing) == NotFound(EntryNotFoundMessage)
    ensures FindOwnedEntry(entries, id, CurrentUserId(claim).value).None?
  {
    var userId := CurrentUserId(claim).value;
    var e :| e in entries && e.id == id && e.userId != userId;
    var k :| 0 <= k < |entries| && entries[k] == e;
    assert forall j :: 0 <= j < |entries| && j != k ==> entries[j].id != id;
  }

  /** An entry whose id is held by no other row is what GetImpulse shows its owner. */
  lemma StoredEntryVisible(entries: seq<ImpulseEntry>, claim: Option<string>, i: nat)
    requires UniqueEntryIds(entries) && i < |entries|
    requires CurrentUserId(claim) == Success(entries[i].userId)
    ensures GetImpulse(entries, claim, entries[i].id) == Ok(EntryResponse(entries[i]))
  {
    var found := FindOwnedEntry(entries, entries[i].id, entries[i].userId);
    assert found.Some?;
    assert found.value == i;
  }

  // ---------------------------------------------------------------- create

  /** POST api/impulseentries: adds one entry, owned by the caller, under the fresh `newId`
      (Guid.NewGuid) and created at `now` (DateTime.UtcNow). */
  method CreateImpulse(db: AppDbContext, claim: Option<string>, dto: CreateImpulseEntryDto, newId: Guid, now: Time)
    returns (r: ActionResult<ImpulseEntryResponseDto>)
    requires db.Valid()
    requires forall e :: e in db.impulseEntries ==> e.id != newId
    modifies db
    ensures db.Valid() && db.users == old(db.users)
    ensures CurrentUserId(claim).Failure? ==>
      r == Thrown(CurrentUserId(claim).error) && db.impulseEntries == old(db.impulseEntries)
    ensures CurrentUserId(claim).Success? ==>
      && |db.impulseEntries| == |old(db.impulseEntries)| + 1
      && db.impulseEntries[..|old(db.impulseEntries)|] == old(db.impulseEntries)
      && var e := db.impulseEntries[|old(db.impulseEntries)|];
         && e.id == newId && e.userId == CurrentUserId(claim).value && e.createdAt == now
         && e.updatedAt.None?
         && e.impulseText == dto.impulseText && e.trigger == dto.trigger && e.emotion == dto.emotion
         && e.didAct == dto.didAct.GetOr(DefaultDidAct) && e.notes == dto.notes
         && r == Created(EntryResponse(e))
         && GetImpulse(db.impulseEntries, claim, newId) == Ok(EntryResponse(e))
    ensures forall u :: CurrentUserId(claim) != Success(u) ==>
      OwnedBy(db.impulseEntries, u) == OwnedBy(old(db.impulseEntries), u)
  {
    var userId := CurrentUserId(claim);
    if userId.Failure? {
      return Thrown(userId.error);
    }
    var impulse := NewImpulseEntry(newId, userId.value, now, dto.impulseText);
    impulse := impulse.(trigger := dto.trigger, emotion := dto.emotion,
                        didAct := dto.didAct.GetOr(DefaultDidAct), notes := dto.notes);
    ghost var before := db.impulseEntries;
    AppendedIdIsUnique(before, impulse);
    db.impulseEntries := db.impulseEntries + [impulse];
    StoredEntryVisible(db.impulseEntries, claim, |before|);
    forall u | u != userId.value ensures OwnedBy(db.impulseEntries, u) == OwnedBy(before, u) {
      OwnedByAppend(before, impulse, u);
    }
    r := Created(EntryResponse(impulse));
  }

  /** A created entry's outcome is "unknown" exactly when the body left it out, sent null, or
      sent "unknown". */
  lemma CreatedOutcome(j: CreateImpulseEntryJson)
    ensures BindCreate(j).didAct.GetOr(DefaultDidAct) == DefaultDidAct <==>
      j.didAct.Omitted? || j.didAct.Null? || j.didAct == Present(DefaultDidAct)
    ensures BindCreate(j).didAct.GetOr(DefaultDidAct) in OutcomeTags <==>
      j.didAct.Omitted? || j.didAct.Null? || (j.didAct.Present? && j.didAct.value in OutcomeTags)
  {
  }

  // ---------------------------------------------------------------- update

  /** The entry after a patch: a present field overwrites, a null one keeps the stored value. */
  predicate Patched(before: ImpulseEntry, after: ImpulseEntry, dto: UpdateImpulseEntryDto, now: Time) {
    && after.id == before.id && after.userId == before.userId && after.createdAt == before.createdAt
    && after.updatedAt == Some(now)
    && after.impulseText == dto.impulseText.GetOr(before.impulseText)
    && after.trigger == (if dto.trigger.Some? then dto.trigger else before.trigger)
    && after.emotion == (if dto.emotion.Some? then dto.emotion else before.emotion)
    && after.didAct == dto.didAct.GetOr(before.didAct)
    && after.notes == (if dto.notes.Some? then dto.notes else before.notes)
  }

  /** PUT api/impulseentries/{id}: patches the caller's entry in place; 404, with nothing
      changed, when the entry is missing or someone else's. */
  method UpdateImpulse(db: AppDbContext, claim: Option<string>, id: Guid, dto: UpdateImpulseEntryDto, now: Time)
    returns (r: ActionResult<ImpulseEntryResponseDto>)
    requires db.Valid()
    modifies db
    ensures db.Valid() && db.users == old(db.users)
    ensures CurrentUserId(claim).Failure? ==>
      r == Thrown(CurrentUserId(claim).error) && db.impulseEntries == old(db.impulseEntries)
    ensures CurrentUserId(claim).Success? ==>
      var userId := CurrentUserId(claim).value;
      match FindOwnedEntry(old(db.impulseEntries), id, userId)
      case None =>
        && r == NotFound(EntryNotFoundMessage) && db.impulseEntries == old(db.impulseEntries)
        && !exists e :: e in old(db.impulseEntries) && e.id == id && e.userId == userId
      case Some(i) =>
        && |db.impulseEntries| == |old(db.impulseEntries)|
        && old(db.impulseEntries)[i].id == id && old(db.impulseEntries)[i].userId == userId
        && Patched(old(db.impulseEntries)[i], db.impulseEntries[i], dto, now)
        && (forall j :: 0 <= j < |db.impulseEntries| && j != i ==> db.impulseEntries[j] == old(db.impulseEntries)[j])
        && r == Ok(EntryResponse(db.impulseEntries[i]))
        && GetImpulse(db.impulseEntries, claim, id) == r
    ensures forall u :: CurrentUserId(claim) != Success(u) ==>
      OwnedBy(db.impulseEntries, u) == OwnedBy(old(db.impulseEntries), u)
  {
    var userId := CurrentUserId(claim);
    if userId.Failure? {
      return Thrown(userId.error);
    }
    var found := FindOwnedEntry(db.impulseEntries, id, userId.value);
    if found.None? {
      return NotFound(EntryNotFoundMessage);
    }
    var i := found.value;
    var impulse := ApplyPatch(db.impulseEntries[i], dto, now);

    ghost var before := db.impulseEntries;
    PatchInPlace(before, claim, i, impulse);
    db.impulseEntries := db.impulseEntries[i := impulse];
    r := Ok(EntryResponse(impulse));
  }

  /** The field assignments of the update: each field sent overwrites, and the update time is set. */
  method ApplyPatch(before: ImpulseEntry, dto: UpdateImpulseEntryDto, now: Time) returns (impulse: ImpulseEntry)
    ensures Patched(before, impulse, dto, now)
  {
    impulse := before;
    if dto.impulseText.Some? { impulse := impulse.(impulseText := dto.impulseText.value); }
    if dto.trigger.Some? { impulse := impulse.(trigger := dto.trigger); }
    if dto.emotion.Some? { impulse := impulse.(emotion := dto.emotion); }
    if dto.didAct.Some? { impulse := impulse.(didAct := dto.didAct.value); }
    if dto.notes.Some? { impulse := impulse.(notes := dto.notes); }
    impulse := impulse.(updatedAt := Some(now));
  }

  /** Overwriting the caller's row in place under its own id keeps the keys unique, shows the
      new row to its owner and leaves every other user's entries as they were. */
  lemma PatchInPlace(entries: seq<ImpulseEntry>, claim: Option<string>, i: nat, e: ImpulseEntry)
    requires UniqueEntryIds(entries) && i < |entries|
    requires e.id == entries[i].id && e.userId == entries[i].userId
    requires CurrentUserId(claim) == Success(e.userId)
    ensures UniqueEntryIds(entries[i := e])
    ensures GetImpulse(entries[i := e], claim, e.id) == Ok(EntryResponse(e))
    ensures forall u :: CurrentUserId(claim) != Success(u) ==> OwnedBy(entries[i := e], u) == OwnedBy(entries, u)
  {
    ReplacedIdIsUnique(entries, i, e);
    StoredEntryVisible(entries[i := e], claim, i);
    forall u | CurrentUserId(claim) != Success(u) ensures OwnedBy(entries[i := e], u) == OwnedBy(entries, u) {
      OwnedByReplace(entries, i, e, u);
    }
  }

  // ---------------------------------------------------------------- delete

  /** DELETE api/impulseentries/{id}: removes the caller's entry, after which the id reads as
      not found; 404, with nothing changed, when it is missing or someone else's. */
  method DeleteImpulse(db: AppDbContext, claim: Option<string>, id: Guid)
    returns (r: ActionResult<()>)
    requires db.Valid()
    modifies db
    ensures db.Valid() && db.users == old(db.users)
    ensures CurrentUserId(claim).Failure? ==>
      r == Thrown(CurrentUserId(claim).error) && db.impulseEntries == old(db.impulseEntries)
    ensures CurrentUserId(claim).Success? ==>
      var userId := CurrentUserId(claim).value;
      match FindOwnedEntry(old(db.impulseEntries), id, userId)
      case None =>
        && r == NotFound(EntryNotFoundMessage) && db.impulseEntries == old(db.impulseEntries)
        && !exists e :: e in old(db.impulseEntries) && e.id == id && e.userId == userId
      case Some(i) =>
        && r == NoContent
        && old(db.impulseEntries)[i].id == id
        && db.impulseEntries == old(db.impulseEntries)[..i] + old(db.impulseEntries)[i + 1..]
        && GetImpulse(db.impulseEntries, claim, id) == NotFound(EntryNotFoundMessage)
    ensures forall u :: CurrentUserId(claim) != Success(u) ==>
      OwnedBy(db.impulseEntries, u) == OwnedBy(old(db.impulseEntries), u)
  {
    var userId := CurrentUserId(claim);
    if userId.Failure? {
      return Thrown(userId.error);
    }
    var found := FindOwnedEntry(db.impulseEntries, id, userId.value);
    if found.None? {
      return NotFound(EntryNotFoundMessage);
    }
    var i := found.value;
    ghost var before := db.impulseEntries;
    RemovedIdIsGone(before, i);
    db.impulseEntries := db.impulseEntries[..i] + db.impulseEntries[i + 1..];
    forall u | u != userId.value ensures OwnedBy(db.impulseEntries, u) == OwnedBy(before, u) {
      OwnedByRemove(before, i, u);
    }
    r := NoContent;
  }
}
