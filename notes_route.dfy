/**
 * GET and POST /api/notes: resolve the caller's identity (session first, then the
 * `X-User-Id` header), find or create the internal user, then list that user's notes or
 * create one owned by them.
 */
module NotesRoute {
  import opened Optional
  import opened Json
  import opened Ordering
  import opened Store
  import opened Http

  const NewUserName := "New User"
  const GetUnauthorized := "Unauthorized"
  const GetFailed := "Failed to fetch notes"
  const PostUnauthorized := "Unauthorized - You must be signed in to create notes"
  const InvalidBody := "Invalid request body"
  const MissingFields := "Title and content are required"
  const CreateRejected := "Database error: Failed to create note"
  const PostFailed := "Failed to create note"

  /** An identity source that yields a truthy id: present and not the empty string. */
  predicate Present(id: Option<string>)
    ensures Present(id) <==> Truthy(if id.Some? then Some(Str(id.value)) else None)
  {
    id.Some? && id.value != ""
  }

  /**
   * The acting identity: the session's user id when it has one, else the `X-User-Id` header,
   * else none (the handlers answer 401).
   */
  function ResolveIdentity(sessionUserId: Option<string>, headerUserId: Option<string>): (clerkId: Option<string>)
    ensures clerkId.None? <==> !Present(sessionUserId) && !Present(headerUserId)
    ensures clerkId.Some? ==> clerkId.value != ""
    ensures Present(sessionUserId) ==> clerkId == sessionUserId
    ensures !Present(sessionUserId) ==> clerkId.Some? ==> clerkId == headerUserId
  {
    if Present(sessionUserId) then sessionUserId
    else if Present(headerUserId) then headerUserId
    else None
  }

  /** The user and users table after get-or-create, when neither query fails. */
  datatype Provisioned = Provisioned(user: User, users: seq<User>, nextUserId: nat)

  function GetOrCreate(users: seq<User>, nextUserId: nat, clerkId: string): (p: Provisioned)
    ensures p.user.clerkId == clerkId && p.user in p.users
    ensures users <= p.users && |p.users| <= |users| + 1
    ensures p.users == users <==> LookupUser(users, clerkId).Some?
    ensures p.users != users ==> p.user == User(nextUserId, clerkId, NewUserName)
  {
    match LookupUser(users, clerkId)
    case Some(u) => Provisioned(u, users, nextUserId)
    case None =>
      var u := User(nextUserId, clerkId, NewUserName);
      Provisioned(u, users + [u], nextUserId + 1)
  }

  lemma {:induction false} UsersWithClerkIdAppend(users: seq<User>, u: User, clerkId: string)
    ensures UsersWithClerkId(users + [u], clerkId) == UsersWithClerkId(users, clerkId) + (if u.clerkId == clerkId then 1 else 0)
  {
    if users != [] {
      assert (users + [u])[1..] == users[1..] + [u];
      UsersWithClerkIdAppend(users[1..], u, clerkId);
    }
  }

  lemma {:induction false} UniqueHasAtMostOne(users: seq<User>, clerkId: string)
    requires UniqueClerkIds(users)
    ensures UsersWithClerkId(users, clerkId) == if LookupUser(users, clerkId).Some? then 1 else 0
  {
    if users != [] {
      UniqueHasAtMostOne(users[1..], clerkId);
      if users[0].clerkId == clerkId {
        assert LookupUser(users[1..], clerkId).None? by {
          forall u | u in users[1..] ensures u.clerkId != clerkId {
            var k :| 0 <= k < |users[1..]| && users[1..][k] == u;
            assert users[0].clerkId != users[k + 1].clerkId;
          }
        }
      }
    }
  }

  /**
   * Get-or-create keeps `clerkId` unique and leaves exactly one user with the resolved
   * identity, which lookup then finds.
   */
  lemma GetOrCreateUnique(users: seq<User>, nextUserId: nat, clerkId: string)
    requires UniqueClerkIds(users)
    ensures var p := GetOrCreate(users, nextUserId, clerkId);
            && UniqueClerkIds(p.users)
            && UsersWithClerkId(p.users, clerkId) == 1
            && LookupUser(p.users, clerkId) == Some(p.user)
  {
    var p := GetOrCreate(users, nextUserId, clerkId);
    UniqueHasAtMostOne(users, clerkId);
    if LookupUser(users, clerkId).None? {
      UsersWithClerkIdAppend(users, p.user, clerkId);
      assert UniqueClerkIds(p.users) by {
        forall i, j | 0 <= i < j < |p.users| ensures p.users[i].clerkId != p.users[j].clerkId {
          if j == |users| {
            assert p.users[i] in users;
          } else {
            assert p.users[i] == users[i] && p.users[j] == users[j];
          }
        }
      }
      UniqueHasAtMostOne(p.users, clerkId);
    } else {
      UniqueHasAtMostOne(users, clerkId);
    }
  }

  /** Get-or-create is idempotent: a second request with the same identity reuses the user. */
  lemma GetOrCreateIdempotent(users: seq<User>, nextUserId: nat, clerkId: string)
    requires UniqueClerkIds(users)
    ensures var p := GetOrCreate(users, nextUserId, clerkId);
            GetOrCreate(p.users, p.nextUserId, clerkId) == p
  {
    GetOrCreateUnique(users, nextUserId, clerkId);
  }

  /** Both queries of get-or-create succeed (the create is only issued for a new identity). */
  predicate ProvisionSucceeds(users: seq<User>, clerkId: string, failing: set<Query>) {
    FindUser !in failing && (LookupUser(users, clerkId).Some? || CreateUser !in failing)
  }

  /** The rows of `note.findMany({ where: { userId } })`, in table order. */
  function OwnedBy(notes: seq<Note>, userId: nat): (r: seq<Note>)
    ensures forall n :: multiset(r)[n] == if n.userId == userId then multiset(notes)[n] else 0
  {
    if notes == [] then []
    else
      assert notes == [notes[0]] + notes[1..];
      (if notes[0].userId == userId then [notes[0]] else []) + OwnedBy(notes[1..], userId)
  }

  /** `note.findMany({ where: { userId }, orderBy: { createdAt: 'desc' } })`. */
  function NotesOf(notes: seq<Note>, userId: nat): (r: seq<Note>)
    ensures SortedDesc(r, NoteCreatedAt)
    ensures forall n :: multiset(r)[n] == if n.userId == userId then multiset(notes)[n] else 0
    ensures forall n :: n in r <==> n in notes && n.userId == userId
  {
    SortDesc(OwnedBy(notes, userId), NoteCreatedAt)
  }

  /**
   * A created note shows up in its owner's listing and in nobody else's: every other user's
   * listing holds the same notes as before.
   */
  lemma CreatedNoteListedForOwnerOnly(notes: seq<Note>, note: Note, userId: nat)
    ensures note in NotesOf(notes + [note], note.userId)
    ensures userId != note.userId ==> multiset(NotesOf(notes + [note], userId)) == multiset(NotesOf(notes, userId))
  {
    var extended := notes + [note];
    assert note in extended;
    if userId != note.userId {
      var before, after := NotesOf(notes, userId), NotesOf(extended, userId);
      assert multiset(extended) == multiset(notes) + multiset{note};
      forall n: Note ensures multiset(after)[n] == multiset(before)[n] {
        if n.userId == userId {
          assert n != note;
          assert multiset(extended)[n] == multiset(notes)[n];
        }
      }
    }
  }

  /** Get-or-create of the internal user for `clerkId`; None when a query fails. */
  method ProvisionUser(db: Database, clerkId: string, failing: set<Query>) returns (user: Option<User>)
    requires db.Valid()
    modifies db`users, db`nextUserId
    ensures db.Valid()
    ensures user.Some? <==> ProvisionSucceeds(old(db.users), clerkId, failing)
    ensures user.Some? ==>
      var p := GetOrCreate(old(db.users), old(db.nextUserId), clerkId);
      user == Some(p.user) && db.users == p.users && db.nextUserId == p.nextUserId
    ensures user.None? ==> db.users == old(db.users) && db.nextUserId == old(db.nextUserId)
    ensures user.Some? ==> user.value.id in UserIds(db.users)
  {
    if FindUser in failing {
      return None;
    }
    var found := LookupUser(db.users, clerkId);
    if found.Some? {
      return found;
    }
    if CreateUser in failing {
      return None;
    }
    user := db.InsertUser(clerkId, NewUserName);
  }

  /** GET /api/notes: the caller's notes, newest first. */
  method Get(db: Database, sessionUserId: Option<string>, headerUserId: Option<string>, failing: set<Query>)
    returns (reply: Reply<seq<Note>>)
    requires db.Valid()
    modifies db`users, db`nextUserId
    ensures db.Valid()
    ensures ResolveIdentity(sessionUserId, headerUserId).None? ==>
      && reply == Reply(Unauthorized, ErrorBody(GetUnauthorized))
      && db.users == old(db.users) && db.nextUserId == old(db.nextUserId)
    ensures ResolveIdentity(sessionUserId, headerUserId).Some? ==>
      var clerkId := ResolveIdentity(sessionUserId, headerUserId).value;
      var p := GetOrCreate(old(db.users), old(db.nextUserId), clerkId);
      && (ProvisionSucceeds(old(db.users), clerkId, failing) ==> db.users == p.users && db.nextUserId == p.nextUserId)
      && (!ProvisionSucceeds(old(db.users), clerkId, failing) ==> db.users == old(db.users) && db.nextUserId == old(db.nextUserId))
      && (reply.status == Ok <==> ProvisionSucceeds(old(db.users), clerkId, failing) && FindNotes !in failing)
      && (reply.status == Ok ==> reply.body == Payload(NotesOf(db.notes, p.user.id)))
      && (reply.status != Ok ==> reply == Reply(ServerError, ErrorBody(GetFailed)))
  {
    var clerkId := ResolveIdentity(sessionUserId, headerUserId);
    if clerkId.None? {
      return Reply(Unauthorized, ErrorBody(GetUnauthorized));
    }
    var user := ProvisionUser(db, clerkId.value, failing);
    if user.None? || FindNotes in failing {
      return Reply(ServerError, ErrorBody(GetFailed));
    }
    reply := Reply(Ok, Payload(NotesOf(db.notes, user.value.id)));
  }

  /** What POST /api/notes makes of its body once the user is provisioned. */
  datatype NoteBody =
    | BodyUnparseable                        // `request.json()` threw
    | BodyNull                               // destructuring `null` threw
    | FieldsMissing                          // title or content falsy
    | FieldsPresent(title: Value, content: Value)

  function ReadNoteBody(body: Body): (r: NoteBody)
    ensures r.FieldsPresent? <==>
      (body.Parsed? && !body.value.Null?
       && Truthy(Property(body.value, "title")) && Truthy(Property(body.value, "content")))
    ensures r.FieldsPresent? ==>
      Some(r.title) == Property(body.value, "title") && Some(r.content) == Property(body.value, "content")
    ensures r.BodyUnparseable? <==> body.Unparseable?
    ensures r.BodyNull? <==> body == Parsed(Null)
  {
    match body
    case Unparseable => BodyUnparseable
    case Parsed(v) =>
      if v.Null? then BodyNull
      else
        var title, content := Property(v, "title"), Property(v, "content");
        if !Truthy(title) || !Truthy(content) then FieldsMissing
        else FieldsPresent(title.value, content.value)
  }

  /**
   * POST /api/notes: identity (401), then get-or-create of the user (which happens whatever the
   * body), then the body (400 when it is not JSON or lacks a title or content), then the insert.
   */
  method Post(db: Database, sessionUserId: Option<string>, headerUserId: Option<string>, body: Body,
              now: int, failing: set<Query>)
    returns (reply: Reply<Note>)
    requires db.Valid()
    modifies db`users, db`nextUserId, db`notes, db`nextNoteId
    ensures db.Valid()
    ensures ResolveIdentity(sessionUserId, headerUserId).None? ==>
      && reply == Reply(Unauthorized, ErrorBody(PostUnauthorized))
      && db.users == old(db.users) && db.nextUserId == old(db.nextUserId)
      && db.notes == old(db.notes) && db.nextNoteId == old(db.nextNoteId)
    ensures ResolveIdentity(sessionUserId, headerUserId).Some? &&
            !ProvisionSucceeds(old(db.users), ResolveIdentity(sessionUserId, headerUserId).value, failing) ==>
      && reply == Reply(ServerError, ErrorBody(PostFailed))
      && db.users == old(db.users) && db.nextUserId == old(db.nextUserId)
      && db.notes == old(db.notes) && db.nextNoteId == old(db.nextNoteId)
    ensures ResolveIdentity(sessionUserId, headerUserId).Some? &&
            ProvisionSucceeds(old(db.users), ResolveIdentity(sessionUserId, headerUserId).value, failing) ==>
      var p := GetOrCreate(old(db.users), old(db.nextUserId), ResolveIdentity(sessionUserId, headerUserId).value);
      && db.users == p.users && db.nextUserId == p.nextUserId
      && match ReadNoteBody(body)
         case BodyUnparseable =>
           reply == Reply(BadRequest, ErrorBody(InvalidBody))
           && db.notes == old(db.notes) && db.nextNoteId == old(db.nextNoteId)
         case BodyNull =>
           reply == Reply(ServerError, ErrorBody(PostFailed))
           && db.notes == old(db.notes) && db.nextNoteId == old(db.nextNoteId)
         case FieldsMissing =>
           reply == Reply(BadRequest, ErrorBody(MissingFields))
           && db.notes == old(db.notes) && db.nextNoteId == old(db.nextNoteId)
         case FieldsPresent(title, content) =>
           if StringConversionThrows(title) then
             && reply == Reply(ServerError, ErrorBody(PostFailed))
             && db.notes == old(db.notes) && db.nextNoteId == old(db.nextNoteId)
           else if title.Str? && content.Str? && CreateNote !in failing then
             var note := Note(old(db.nextNoteId), title.s, content.s, p.user.id, now);
             && reply == Reply(Created, Payload(note))
             && db.notes == old(db.notes) + [note] && db.nextNoteId == old(db.nextNoteId) + 1
           else
             && reply == Reply(ServerError, ErrorBody(CreateRejected))
             && db.notes == old(db.notes) && db.nextNoteId == old(db.nextNoteId)
  {
    var clerkId := ResolveIdentity(sessionUserId, headerUserId);
    if clerkId.None? {
      return Reply(Unauthorized, ErrorBody(PostUnauthorized));
    }
    var user := ProvisionUser(db, clerkId.value, failing);
    if user.None? {
      return Reply(ServerError, ErrorBody(PostFailed));
    }
    match ReadNoteBody(body)
    case BodyUnparseable =>
      reply := Reply(BadRequest, ErrorBody(InvalidBody));
    case BodyNull =>
      reply := Reply(ServerError, ErrorBody(PostFailed));
    case FieldsMissing =>
      reply := Reply(BadRequest, ErrorBody(MissingFields));
    case FieldsPresent(title, content) =>
      // Logging the title converts it to a string, which can throw into the outer catch; the
      // store then rejects a title or content that is not a string.
      if StringConversionThrows(title) {
        reply := Reply(ServerError, ErrorBody(PostFailed));
      } else if !title.Str? || !content.Str? || CreateNote in failing {
        reply := Reply(ServerError, ErrorBody(CreateRejected));
      } else {
        var note := db.InsertNote(title.s, content.s, user.value.id, now);
        reply := Reply(Created, Payload(note));
      }
  }

  /** A request with neither a session nor a header writes nothing and is refused. */
  method AnonymousPostWritesNothing() returns (status: int, userCount: nat, noteCount: nat)
    ensures status == Unauthorized && userCount == 0 && noteCount == 0
  {
    var db := new Database();
    var body := Parsed(Object(map["title" := Str("t"), "content" := Str("c")]));
    var reply := Post(db, None, None, body, 0, {});
    status, userCount, noteCount := reply.status, |db.users|, |db.notes|;
  }

  /** A first request from a new identity creates its user once; the next request reuses it. */
  method FirstContactProvisionsOnce() returns (statuses: seq<int>, userCount: nat)
    ensures statuses == [Ok, Ok] && userCount == 1
  {
    var db := new Database();
    var first := Get(db, None, Some("user_1"), {});
    assert db.users == [User(1, "user_1", NewUserName)];
    assert LookupUser(db.users, "user_1").Some?;
    var second := Get(db, Some("user_1"), None, {});
    assert db.users == [User(1, "user_1", NewUserName)];
    statuses, userCount := [first.status, second.status], |db.users|;
  }

  /** A malformed body from a new identity still creates the user, but never a note. */
  method BadBodyStillProvisions() returns (status: int, userCount: nat, noteCount: nat)
    ensures status == BadRequest && userCount == 1 && noteCount == 0
  {
    var db := new Database();
    var reply := Post(db, None, Some("user_1"), Unparseable, 0, {});
    status, userCount, noteCount := reply.status, |db.users|, |db.notes|;
  }

  /**
   * A title object carrying its own non-function `toString` cannot be logged: the request
   * fails in the outer catch, not in the insert, and no note is written.
   */
  method UnloggableTitleFails() returns (reply: Reply<Note>, noteCount: nat)
    ensures reply == Reply(ServerError, ErrorBody(PostFailed)) && noteCount == 0
  {
    var db := new Database();
    var title := Object(map["toString" := Number(1)]);
    var body := Parsed(Object(map["title" := title, "content" := Str("c")]));
    assert ReadNoteBody(body) == FieldsPresent(title, Str("c"));
    reply := Post(db, None, Some("user_1"), body, 0, {});
    noteCount := |db.notes|;
  }
}
