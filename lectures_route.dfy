/** GET and POST /api/lectures: every lecture note, newest first, and creation of one. */
module LecturesRoute {
  import opened Optional
  import opened Json
  import opened Ordering
  import opened Store
  import opened Http

  const GetFailed := "Failed to fetch lecture notes"
  const MissingFields := "Subject and content are required"
  const PostFailed := "Failed to create lecture note"

  /** `lectureNote.findMany({ orderBy: { createdAt: 'desc' } })`: no owner filter. */
  function ListLectureNotes(rows: seq<LectureNote>): (r: seq<LectureNote>)
    ensures SortedDesc(r, LectureCreatedAt)
    ensures multiset(r) == multiset(rows)
  {
    SortDesc(rows, LectureCreatedAt)
  }

  /** GET /api/lectures. */
  method Get(db: Database, failing: set<Query>) returns (reply: Reply<seq<LectureNote>>)
    ensures reply.status == Ok <==> FindLectureNotes !in failing
    ensures reply.status == Ok ==>
      && reply.body.Payload?
      && SortedDesc(reply.body.value, LectureCreatedAt)
      && multiset(reply.body.value) == multiset(db.lectureNotes)
    ensures reply.status != Ok ==> reply == Reply(ServerError, ErrorBody(GetFailed))
  {
    if FindLectureNotes in failing {
      return Reply(ServerError, ErrorBody(GetFailed));
    }
    reply := Reply(Ok, Payload(ListLectureNotes(db.lectureNotes)));
  }

  /** What POST /api/lectures makes of its body. */
  datatype LectureBody =
    | BodyThrows                             // not JSON, or `null`: caught as a server error
    | FieldsMissing                          // subject or content falsy
    | FieldsPresent(subject: Value, content: Value)

  function ReadLectureBody(body: Body): (r: LectureBody)
    ensures r.BodyThrows? <==> body.Unparseable? || body == Parsed(Null)
    ensures r.FieldsPresent? ==>
      && body.Parsed? && !body.value.Null?
      && Some(r.subject) == Property(body.value, "subject") && Truthy(Some(r.subject))
      && Some(r.content) == Property(body.value, "content") && Truthy(Some(r.content))
    ensures r.FieldsMissing? ==>
      !Truthy(Property(body.value, "subject")) || !Truthy(Property(body.value, "content"))
  {
    match body
    case Unparseable => BodyThrows
    case Parsed(v) =>
      if v.Null? then BodyThrows
      else
        var subject, content := Property(v, "subject"), Property(v, "content");
        if !Truthy(subject) || !Truthy(content) then FieldsMissing
        else FieldsPresent(subject.value, content.value)
  }

  /** The body yields a record the store accepts: both fields are non-empty strings. */
  predicate Insertable(b: LectureBody) {
    b.FieldsPresent? && b.subject.Str? && b.content.Str?
  }

  /** POST /api/lectures: 400 for a missing field, 201 with the new record, 500 for anything else. */
  method Post(db: Database, body: Body, now: int, failing: set<Query>) returns (reply: Reply<LectureNote>)
    requires db.Valid()
    modifies db`lectureNotes, db`nextLectureNoteId
    ensures db.Valid()
    ensures reply.status == Created <==> Insertable(ReadLectureBody(body)) && CreateLectureNote !in failing
    ensures reply.status == Created ==>
      var b := ReadLectureBody(body);
      var lecture := LectureNote(old(db.nextLectureNoteId), b.subject.s, b.content.s, now);
      && reply == Reply(Created, Payload(lecture))
      && db.lectureNotes == old(db.lectureNotes) + [lecture]
      && db.nextLectureNoteId == old(db.nextLectureNoteId) + 1
    ensures reply.status != Created ==>
      && db.lectureNotes == old(db.lectureNotes) && db.nextLectureNoteId == old(db.nextLectureNoteId)
      && reply == if ReadLectureBody(body).FieldsMissing? then Reply(BadRequest, ErrorBody(MissingFields))
                  else Reply(ServerError, ErrorBody(PostFailed))
  {
    var b := ReadLectureBody(body);
    if b.FieldsMissing? {
      return Reply(BadRequest, ErrorBody(MissingFields));
    }
    if !Insertable(b) || CreateLectureNote in failing {
      return Reply(ServerError, ErrorBody(PostFailed));
    }
    var lecture := db.InsertLectureNote(b.subject.s, b.content.s, now);
    reply := Reply(Created, Payload(lecture));
  }
}
