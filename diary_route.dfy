/** GET and POST /api/diary: every diary entry, latest date first, and creation of one. */
module DiaryRoute {
  import opened Optional
  import opened Json
  import opened Ordering
  import opened Store
  import opened Http

  const GetFailed := "Failed to fetch diary entries"
  const MissingContent := "Content is required"
  const PostFailed := "Failed to create diary entry"

  /** The largest magnitude, in milliseconds, of a valid JavaScript Date. */
  const MaxTime := 8_640_000_000_000_000

  /** `diaryEntry.findMany({ orderBy: { date: 'desc' } })`: no owner filter. */
  function ListDiaryEntries(rows: seq<DiaryEntry>): (r: seq<DiaryEntry>)
    ensures SortedDesc(r, DiaryDate)
    ensures multiset(r) == multiset(rows)
  {
    SortDesc(rows, DiaryDate)
  }

  /** GET /api/diary. */
  method Get(db: Database, failing: set<Query>) returns (reply: Reply<seq<DiaryEntry>>)
    ensures reply.status == Ok <==> FindDiaryEntries !in failing
    ensures reply.status == Ok ==>
      && reply.body.Payload?
      && SortedDesc(reply.body.value, DiaryDate)
      && multiset(reply.body.value) == multiset(db.diaryEntries)
    ensures reply.status != Ok ==> reply == Reply(ServerError, ErrorBody(GetFailed))
  {
    if FindDiaryEntries in failing {
      return Reply(ServerError, ErrorBody(GetFailed));
    }
    reply := Reply(Ok, Payload(ListDiaryEntries(db.diaryEntries)));
  }

  /**
   * `date ? new Date(date) : new Date()`: the supplied date when it is truthy, else `now`.
   * None is an invalid Date, which the store refuses. A string goes through `parseDate`.
   */
  function StoredDate(date: Option<Value>, now: int, parseDate: string -> Option<int>): (d: Option<int>)
    ensures !Truthy(date) ==> d == Some(now)
    ensures Truthy(date) && date.value.Number? ==>
      (d.Some? <==> -MaxTime <= date.value.n <= MaxTime) && (d.Some? ==> d.value == date.value.n)
    ensures Truthy(date) && date.value.Str? ==> d == parseDate(date.value.s)
  {
    if !Truthy(date) then Some(now)
    else
      match date.value
      case Number(n) => if -MaxTime <= n <= MaxTime then Some(n) else None
      case Str(s) => parseDate(s)
      case Bool(_) => Some(1)
      case _ => None
  }

  /** What POST /api/diary makes of its body. */
  datatype DiaryBody =
    | BodyThrows                             // not JSON, or `null`: caught as a server error
    | ContentMissing                         // content falsy
    | ContentPresent(content: Value, date: Option<Value>)

  function ReadDiaryBody(body: Body): (r: DiaryBody)
    ensures r.BodyThrows? <==> body.Unparseable? || body == Parsed(Null)
    ensures r.ContentPresent? ==>
      && body.Parsed? && !body.value.Null?
      && Some(r.content) == Property(body.value, "content") && Truthy(Some(r.content))
      && r.date == Property(body.value, "date")
    ensures r.ContentMissing? ==> !Truthy(Property(body.value, "content"))
  {
    match body
    case Unparseable => BodyThrows
    case Parsed(v) =>
      if v.Null? then BodyThrows
      else
        var content := Property(v, "content");
        if !Truthy(content) then ContentMissing
        else ContentPresent(content.value, Property(v, "date"))
  }

  /** The body yields an entry the store accepts: string content and a valid date. */
  predicate Insertable(b: DiaryBody, now: int, parseDate: string -> Option<int>) {
    b.ContentPresent? && b.content.Str? && StoredDate(b.date, now, parseDate).Some?
  }

  /** POST /api/diary: 400 without content, 201 with the new entry, 500 for anything else. */
  method Post(db: Database, body: Body, now: int, parseDate: string -> Option<int>, failing: set<Query>)
    returns (reply: Reply<DiaryEntry>)
    requires db.Valid()
    modifies db`diaryEntries, db`nextDiaryEntryId
    ensures db.Valid()
    ensures reply.status == Created <==> Insertable(ReadDiaryBody(body), now, parseDate) && CreateDiaryEntry !in failing
    ensures reply.status == Created ==>
      var b := ReadDiaryBody(body);
      var entry := DiaryEntry(old(db.nextDiaryEntryId), b.content.s, StoredDate(b.date, now, parseDate).value);
      && reply == Reply(Created, Payload(entry))
      && db.diaryEntries == old(db.diaryEntries) + [entry]
      && db.nextDiaryEntryId == old(db.nextDiaryEntryId) + 1
    ensures reply.status != Created ==>
      && db.diaryEntries == old(db.diaryEntries) && db.nextDiaryEntryId == old(db.nextDiaryEntryId)
      && reply == if ReadDiaryBody(body).ContentMissing? then Reply(BadRequest, ErrorBody(MissingContent))
                  else Reply(ServerError, ErrorBody(PostFailed))
  {
    var b := ReadDiaryBody(body);
    if b.ContentMissing? {
      return Reply(BadRequest, ErrorBody(MissingContent));
    }
    if !Insertable(b, now, parseDate) || CreateDiaryEntry in failing {
      return Reply(ServerError, ErrorBody(PostFailed));
    }
    var entry := db.InsertDiaryEntry(b.content.s, StoredDate(b.date, now, parseDate).value);
    reply := Reply(Created, Payload(entry));
  }
}
