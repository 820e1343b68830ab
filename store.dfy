/**
 * The database behind the route handlers, as in-memory tables with auto-increment ids. A
 * request may see any of its queries fail; the queries that fail are given as a set.
 */
module Store {
  import opened Optional

  datatype User = User(id: nat, clerkId: string, name: string)
  datatype Note = Note(id: nat, title: string, content: string, userId: nat, createdAt: int)
  datatype LectureNote = LectureNote(id: nat, subject: string, content: string, createdAt: int)
  datatype DiaryEntry = DiaryEntry(id: nat, content: string, date: int)

  /** The queries a handler issues; a request's `failing` set names those the store rejects. */
  datatype Query =
    | FindUser | CreateUser
    | FindNotes | CreateNote
    | FindLectureNotes | CreateLectureNote
    | FindDiaryEntries | CreateDiaryEntry

  /** `user.findUnique({ where: { clerkId } })`. */
  function LookupUser(users: seq<User>, clerkId: string): (r: Option<User>)
    ensures r.Some? ==> r.value in users && r.value.clerkId == clerkId
    ensures r.None? <==> forall u :: u in users ==> u.clerkId != clerkId
  {
    if users == [] then None
    else if users[0].clerkId == clerkId then Some(users[0])
    else LookupUser(users[1..], clerkId)
  }

  /** The unique constraint on `clerkId`. */
  predicate UniqueClerkIds(users: seq<User>) {
    forall i, j :: 0 <= i < j < |users| ==> users[i].clerkId != users[j].clerkId
  }

  /** How many users carry the identity provider id `clerkId`. */
  function UsersWithClerkId(users: seq<User>, clerkId: string): nat {
    if users == [] then 0
    else (if users[0].clerkId == clerkId then 1 else 0) + UsersWithClerkId(users[1..], clerkId)
  }

  function UserIds(users: seq<User>): set<nat> {
    set u | u in users :: u.id
  }

  /** The creation time of a note, the key GET /api/notes and GET /api/lectures sort by. */
  function NoteCreatedAt(n: Note): int { n.createdAt }
  function LectureCreatedAt(l: LectureNote): int { l.createdAt }
  function DiaryDate(d: DiaryEntry): int { d.date }

  class Database {
    var users: seq<User>
    var notes: seq<Note>
    var lectureNotes: seq<LectureNote>
    var diaryEntries: seq<DiaryEntry>
    var nextUserId: nat
    var nextNoteId: nat
    var nextLectureNoteId: nat
    var nextDiaryEntryId: nat

    /**
     * Ids increase in insertion order and stay below the next id to hand out, `clerkId` is
     * unique, and every note belongs to an existing user.
     */
    ghost predicate Valid()
      reads this
    {
      && UniqueClerkIds(users)
      && (forall i, j :: 0 <= i < j < |users| ==> users[i].id < users[j].id)
      && (forall i :: 0 <= i < |users| ==> users[i].id < nextUserId)
      && (forall i, j :: 0 <= i < j < |notes| ==> notes[i].id < notes[j].id)
      && (forall i :: 0 <= i < |notes| ==> notes[i].id < nextNoteId && notes[i].userId in UserIds(users))
      && (forall i, j :: 0 <= i < j < |lectureNotes| ==> lectureNotes[i].id < lectureNotes[j].id)
      && (forall i :: 0 <= i < |lectureNotes| ==> lectureNotes[i].id < nextLectureNoteId)
      && (forall i, j :: 0 <= i < j < |diaryEntries| ==> diaryEntries[i].id < diaryEntries[j].id)
      && (forall i :: 0 <= i < |diaryEntries| ==> diaryEntries[i].id < nextDiaryEntryId)
    }

    constructor ()
      ensures Valid()
      ensures users == [] && notes == [] && lectureNotes == [] && diaryEntries == []
      ensures nextUserId == 1 && nextNoteId == 1 && nextLectureNoteId == 1 && nextDiaryEntryId == 1
    {
      users, notes, lectureNotes, diaryEntries := [], [], [], [];
      nextUserId, nextNoteId, nextLectureNoteId, nextDiaryEntryId := 1, 1, 1, 1;
    }

    /** `user.create`: rejected by the unique constraint when the `clerkId` is taken. */
    method InsertUser(clerkId: string, name: string) returns (user: Option<User>)
      requires Valid()
      modifies this`users, this`nextUserId
      ensures Valid()
      ensures LookupUser(old(users), clerkId).Some? ==>
        user.None? && users == old(users) && nextUserId == old(nextUserId)
      ensures LookupUser(old(users), clerkId).None? ==>
        && user == Some(User(old(nextUserId), clerkId, name))
        && users == old(users) + [user.value] && nextUserId == old(nextUserId) + 1
    {
      if LookupUser(users, clerkId).Some? {
        return None;
      }
      var u := User(nextUserId, clerkId, name);
      users := users + [u];
      nextUserId := nextUserId + 1;
      user := Some(u);
    }

    /** `note.create` for an existing user. */
    method InsertNote(title: string, content: string, userId: nat, now: int) returns (note: Note)
      requires Valid() && userId in UserIds(users)
      modifies this`notes, this`nextNoteId
      ensures Valid()
      ensures note == Note(old(nextNoteId), title, content, userId, now)
      ensures notes == old(notes) + [note] && nextNoteId == old(nextNoteId) + 1
    {
      note := Note(nextNoteId, title, content, userId, now);
      notes := notes + [note];
      nextNoteId := nextNoteId + 1;
    }

    /** `lectureNote.create`. */
    method InsertLectureNote(subject: string, content: string, now: int) returns (lecture: LectureNote)
      requires Valid()
      modifies this`lectureNotes, this`nextLectureNoteId
      ensures Valid()
      ensures lecture == LectureNote(old(nextLectureNoteId), subject, content, now)
      ensures lectureNotes == old(lectureNotes) + [lecture] && nextLectureNoteId == old(nextLectureNoteId) + 1
    {
      lecture := LectureNote(nextLectureNoteId, subject, content, now);
      lectureNotes := lectureNotes + [lecture];
      nextLectureNoteId := nextLectureNoteId + 1;
    }

    /** `diaryEntry.create`. */
    method InsertDiaryEntry(content: string, date: int) returns (entry: DiaryEntry)
      requires Valid()
      modifies this`diaryEntries, this`nextDiaryEntryId
      ensures Valid()
      ensures entry == DiaryEntry(old(nextDiaryEntryId), content, date)
      ensures diaryEntries == old(diaryEntries) + [entry] && nextDiaryEntryId == old(nextDiaryEntryId) + 1
    {
      entry := DiaryEntry(nextDiaryEntryId, content, date);
      diaryEntries := diaryEntries + [entry];
      nextDiaryEntryId := nextDiaryEntryId + 1;
    }
  }
}
