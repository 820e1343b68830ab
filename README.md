# NotesTalk voice notes: a verified model

NotesTalk is a voice-notes web application. The browser transcribes speech, the editor derives
a default title from the transcript, and the server stores notes, lecture notes and diary
entries behind REST handlers. This project models two pieces of it in Dafny and proves their
properties:

- **The voice-note editor** (`VoiceNoteSection`). The title heuristic `generateTitleFromTranscript`
  is a set of pure functions (`TitleHeuristic`), built on models of the JavaScript string
  built-ins it uses (`JsText`). The component's state and event handlers form the class
  `VoiceNoteEditor.NoteEditor`, including typing into the content box, which changes the
  transcript without touching the title. Its object invariant says that, until the title is
  edited by hand, the title is the one generated from the last transcript that speech
  recognition produced since the draft was cleared (not from typed content).
- **The record handlers** of `/api/notes`, `/api/lectures` and `/api/diary` (`NotesRoute`,
  `LecturesRoute`, `DiaryRoute`). They run over an in-memory database class (`Store.Database`)
  with auto-increment ids, a unique `clerkId` and a foreign key from notes to users. Identity
  resolution and get-or-create of the internal user are separate members. The database may
  reject any query; each request names the queries it rejects in a `failing` set, so every
  contract can say exactly which reply comes back and what was written.

Files: `optional.dfy`, `js_text.dfy`, `title.dfy`, `editor.dfy`, `json.dfy`, `ordering.dfy`,
`http.dfy`, `store.dfy`, `notes_route.dfy`, `lectures_route.dfy`, `diary_route.dfy`.

Where the code's comments or names suggest one thing and the code does another, the model follows the code:

- A sentence becomes the title only when the *shortest* prefix ending in `.`, `!` or `?` and
  followed by white space is at most 100 UTF-16 code units long. If that first sentence is
  longer, the word rule applies, even if a later sentence would fit.
- Required fields are checked for JavaScript truthiness, not for being non-empty strings.
- A body that is not JSON gives 400 on `/api/notes` but 500 on `/api/lectures` and `/api/diary`.
- A JSON `null` body gives 500 everywhere, because destructuring it throws.
- "The title ends in `...` exactly when words were cut off" holds only in the direction
  truncated ⇒ ellipsis. An untruncated title is the text itself, and the text may end in `...`
  on its own, as in `wait...`. `TitleHeuristic.WordRule` states the exact behaviour.

## Model

| member | source | states |
|---|---|---|
| `JsText.Utf16Length` | src/app/components/VoiceNoteSection.tsx:116 | A string's JavaScript length lies between its character count and twice that. |
| `JsText.TrimStart` | src/app/components/VoiceNoteSection.tsx:298 | Leading trim drops only white space, keeps a suffix, and leaves no leading white space. |
| `JsText.TrimEnd` | src/app/components/VoiceNoteSection.tsx:298 | Trailing trim drops only white space, keeps a prefix, and leaves no trailing white space. |
| `JsText.Trim` | src/app/components/VoiceNoteSection.tsx:298-310 | `trim()` never lengthens a string, and its result is empty exactly when every character is ECMAScript white space or a line terminator (the blank test on line 298). |
| `JsText.TrimIsInnerPiece` | src/app/components/VoiceNoteSection.tsx:308-311 | The trimmed text sent on save is a contiguous piece of the draft with no white space at either end. |
| `JsText.Split` | src/app/components/VoiceNoteSection.tsx:121 | `split(' ')` yields at least one piece, and no piece contains a space. |
| `JsText.Join` | src/app/components/VoiceNoteSection.tsx:144 | `join(' ')` begins with the first word, and a space follows it when more words come. |
| `JsText.JoinSplit` | src/app/components/VoiceNoteSection.tsx:121-144 | Joining the pieces of `split(' ')` with `' '` gives back the text. |
| `JsText.SplitJoin` | src/app/components/VoiceNoteSection.tsx:143-144 | Splitting a join of space-free pieces gives back the pieces. |
| `JsText.JoinAt` | src/app/components/VoiceNoteSection.tsx:143-144 | A join of pieces is the join of its first k pieces, a space, and the join of the rest. |
| `TitleHeuristic.SentenceEndFrom` | src/app/components/VoiceNoteSection.tsx:115 | The lazy scan of `^(.*?[.!?])\s` finds the first sentence-ending position from i, or proves there is none. |
| `TitleHeuristic.FirstSentenceEnd` | src/app/components/VoiceNoteSection.tsx:115 | The regex matches iff some position ends a sentence; the group ends at the least such position. |
| `TitleHeuristic.WordBudget` | src/app/components/VoiceNoteSection.tsx:123-141 | The word count is at most n and at most 6, at least 1 when n ≥ 1, and below n exactly when n > 3. |
| `TitleHeuristic.WordTitle` | src/app/components/VoiceNoteSection.tsx:121-144 | With at most 3 pieces the word title is the text itself; with more it ends in "...". |
| `TitleHeuristic.GenerateTitle` | src/app/components/VoiceNoteSection.tsx:111-145 | The title is empty exactly when the transcript is empty. |
| `TitleHeuristic.WordTitleNonEmpty` | src/app/components/VoiceNoteSection.tsx:143-144 | A non-empty transcript never has an empty word-based title. |
| `TitleHeuristic.SentenceRule` | src/app/components/VoiceNoteSection.tsx:115-118 | With a first sentence of at most 100 code units, the title is exactly that prefix: it ends in its terminator and is shorter than the text. |
| `TitleHeuristic.TrailingTerminatorIgnored` | src/app/components/VoiceNoteSection.tsx:115 | A terminator that is the last character of the text never ends a sentence. |
| `TitleHeuristic.WordRule` | src/app/components/VoiceNoteSection.tsx:120-144 | Otherwise the title keeps 1 to 6 words, so the cap of 8 never binds. With at most 3 pieces it is the text itself. With more, it is a space-bounded prefix of the text, with exactly k words, followed by `...`. |
| `TitleHeuristic.HelloWorldExample` | src/app/components/VoiceNoteSection.tsx:115-117 | "Hello world. This is a test" gets the title "Hello world.". |
| `VoiceNoteEditor.SaveRejectedMessage` | src/app/components/VoiceNoteSection.tsx:325-328 | A rejected save shows the server's error when it has one, and never an empty message. |
| `VoiceNoteEditor.DraftToSend` | src/app/components/VoiceNoteSection.tsx:298-311 | A save has a payload iff title and transcript are both non-blank after trim; the payload is the trimmed pair. |
| `VoiceNoteEditor.Transcription` | src/app/components/VoiceNoteSection.tsx:233-235 | The joined transcript is empty exactly when every segment is, and starts with the first segment. |
| `VoiceNoteEditor.TranscriptionAppend` | src/app/components/VoiceNoteSection.tsx:233-235 | The transcript of results split in two is the two transcripts concatenated. |
| `VoiceNoteEditor.WithoutNote` | src/app/components/VoiceNoteSection.tsx:384 | After the filter, a note is in the list iff it was before and has a different id. |
| `VoiceNoteEditor.WithoutNoteAppend` | src/app/components/VoiceNoteSection.tsx:384 | The filter keeps order: filtering a concatenation filters each part in place. |
| `VoiceNoteEditor.WithoutNoteAbsent` | src/app/components/VoiceNoteSection.tsx:384 | A list with no note of that id is left exactly as it was. |
| `VoiceNoteEditor.WithoutNoteIdempotent` | src/app/components/VoiceNoteSection.tsx:384 | Removing an id twice is the same as removing it once. |
| `VoiceNoteEditor.SingleWordTitle` | src/app/components/VoiceNoteSection.tsx:111-145 | A single word with no terminator is its own title. |
| `VoiceNoteEditor.NoteEditor.constructor` | src/app/components/VoiceNoteSection.tsx:17-25 | The component starts idle, with an empty draft, no notes, nothing selected and no messages. |
| `VoiceNoteEditor.NoteEditor.ToggleListening` | src/app/components/VoiceNoteSection.tsx:194-283 | Clears both messages. Stop: listening ends and the draft is kept. Start: clears transcript, title and edit flag, then listens if the browser supports recognition, else sets the unsupported error. |
| `VoiceNoteEditor.NoteEditor.OnResult` | src/app/components/VoiceNoteSection.tsx:231-247 | Corrected (see ## Findings): the transcript becomes the concatenated segments. A non-empty transcript regenerates the title unless it was edited by hand; an edited title is frozen. |
| `VoiceNoteEditor.NoteEditor.OnResultAsWritten` | src/app/components/VoiceNoteSection.tsx:231-247 | As written, the handler tests the edit flag captured when recording started. |
| `VoiceNoteEditor.NoteEditor.OnError` | src/app/components/VoiceNoteSection.tsx:250-254 | A recognition error stops listening and reports the error code. |
| `VoiceNoteEditor.NoteEditor.OnEnd` | src/app/components/VoiceNoteSection.tsx:263-270 | The end event stops listening. |
| `VoiceNoteEditor.NoteEditor.ClearDraft` | src/app/components/VoiceNoteSection.tsx:208-210 | Empties transcript and title and clears the edit flag, which keeps the invariant (the same reset runs at lines 343-345 after a save). |
| `VoiceNoteEditor.NoteEditor.EditTranscript` | src/app/components/VoiceNoteSection.tsx:453 | Typing into the content box sets the transcript to the typed text; the title and the edit flag stay as they were, and the invariant holds. |
| `VoiceNoteEditor.NoteEditor.EditTitle` | src/app/components/VoiceNoteSection.tsx:286-289 | A manual edit sets the title to the typed value and sets the edit flag. |
| `VoiceNoteEditor.NoteEditor.SelectNote` | src/app/components/VoiceNoteSection.tsx:534 | Clicking a note opens it. |
| `VoiceNoteEditor.NoteEditor.SaveNote` | src/app/components/VoiceNoteSection.tsx:292-358 | Sends a payload iff the user is signed in and both title and transcript are non-blank after trim; the payload is the trimmed pair. A guard failure only sets its error. A success stops listening, clears the draft and reports success. A rejection shows the server's error. |
| `VoiceNoteEditor.NoteEditor.DeleteNote` | src/app/components/VoiceNoteSection.tsx:361-399 | On success the note with that id leaves the list, the other notes keep their order, and the open note closes only if it had that id. Failure and no user only set errors. |
| `VoiceNoteEditor.NoteEditor.FetchNotes` | src/app/components/VoiceNoteSection.tsx:47-94 | The list becomes the fetched notes. A 401 or a failure empties it and sets the matching error; with no user, it only sets an error. |
| `VoiceNoteEditor.ManualTitleLostAsWritten` | src/app/components/VoiceNoteSection.tsx:231-243 | As written, a title typed during a recording is overwritten by the next result: "My title" becomes "hello" with the edit flag set. |
| `VoiceNoteEditor.FreshRecordingUntitledAsWritten` | src/app/components/VoiceNoteSection.tsx:206-243 | As written, a recording started right after a manual edit keeps an empty title when "hello" arrives, although the edit flag was reset. |
| `VoiceNoteEditor.TypedContentNeedsTitle` | src/app/components/VoiceNoteSection.tsx:298-300 | Content typed into an empty draft leaves the title blank, so the save sends nothing and shows the blank-field error. |
| `VoiceNoteEditor.ManualTitleKept` | src/app/components/VoiceNoteSection.tsx:239-243 | With the current flag consulted, the typed title survives the next result. |
| `Json.Property` | src/app/api/notes/route.ts:116 | Destructuring yields a property only for an object that has the key. |
| `Json.Truthy` | src/app/api/notes/route.ts:118 | JavaScript truthiness of a destructured field: `undefined` and `null` are falsy, every array and object is truthy. |
| `Json.StringConversionThrows` | src/app/api/notes/route.ts:125 | The template-literal conversion can throw only for an object or a non-empty array. |
| `Ordering.InsertDesc` | src/app/api/notes/route.ts:48-50 | Inserting into a non-increasing list keeps it non-increasing and adds exactly that element. |
| `Ordering.SortDesc` | src/app/api/notes/route.ts:48-50 | `orderBy: 'desc'` returns a non-increasing permutation of the rows. |
| `Store.LookupUser` | src/app/api/notes/route.ts:30-32 | `findUnique` by `clerkId` returns a row with that `clerkId`, and returns none iff no row has it. |
| `Store.Database.constructor` | src/app/lib/db.ts:6 | The database starts with empty tables and ids counting from 1. |
| `Store.Database.InsertUser` | src/app/api/notes/route.ts:36-41 | `user.create` appends one user with the next id, unless the unique `clerkId` is taken. |
| `Store.Database.InsertNote` | src/app/api/notes/route.ts:129-135 | `note.create` appends exactly one note with the next id and keeps the invariant. |
| `Store.Database.InsertLectureNote` | src/app/api/lectures/route.ts:33-38 | `lectureNote.create` appends exactly one record with the next id. |
| `Store.Database.InsertDiaryEntry` | src/app/api/diary/route.ts:33-38 | `diaryEntry.create` appends exactly one entry with the next id. |
| `NotesRoute.Present` | src/app/api/notes/route.ts:15-20 | An identity source counts exactly when its string id is truthy, so an empty id counts as missing. |
| `NotesRoute.ResolveIdentity` | src/app/api/notes/route.ts:9-27 | Identity is the session id when truthy, else the `X-User-Id` header when truthy; it is absent iff both are. |
| `NotesRoute.GetOrCreate` | src/app/api/notes/route.ts:29-42 | The user has the resolved `clerkId`. The table grows by at most that user, and grows iff no user had the `clerkId`; a new user is named "New User". |
| `NotesRoute.GetOrCreateUnique` | src/app/api/notes/route.ts:29-42 | After get-or-create `clerkId` stays unique, exactly one user has the identity, and lookup finds it. |
| `NotesRoute.GetOrCreateIdempotent` | src/app/api/notes/route.ts:88-101 | A second get-or-create with the same identity changes nothing and returns the same user. |
| `NotesRoute.OwnedBy` | src/app/api/notes/route.ts:44-47 | The filter keeps every copy of each note owned by the user and nothing else. |
| `NotesRoute.NotesOf` | src/app/api/notes/route.ts:44-51 | The listing has exactly the user's notes, ordered by `createdAt` non-increasing. |
| `NotesRoute.CreatedNoteListedForOwnerOnly` | src/app/api/notes/route.ts:44-51 | A new note appears in its owner's listing; every other user's listing keeps the same notes. |
| `NotesRoute.ProvisionUser` | src/app/api/notes/route.ts:88-101 | Get-or-create succeeds iff its queries do. On success the tables are those of `GetOrCreate`; on failure nothing is written. |
| `NotesRoute.Get` | src/app/api/notes/route.ts:6-62 | No identity: 401, nothing written. Otherwise the user is provisioned; 200 with the user's notes newest first iff every query succeeds, else 500. |
| `NotesRoute.ReadNoteBody` | src/app/api/notes/route.ts:103-123 | Classifies the body as not JSON, `null`, missing a truthy title or content, or carrying both. |
| `NotesRoute.Post` | src/app/api/notes/route.ts:65-153 | 401 writes nothing. Provisioning failure gives 500 and writes nothing. Otherwise the user is provisioned whatever the body: not JSON or missing fields give 400, `null` gives 500, string fields give 201 with exactly one new note owned by the user, anything else gives 500 with no note. The 500 says "Failed to create note" (the outer catch) when logging the title throws on line 125, that is for an object with its own `toString` or an array holding one, and "Database error: Failed to create note" when the store rejects the insert. |
| `NotesRoute.AnonymousPostWritesNothing` | src/app/api/notes/route.ts:79-85 | A POST with no session and no header gets 401 and creates no user and no note. |
| `NotesRoute.FirstContactProvisionsOnce` | src/app/api/notes/route.ts:29-42 | Two requests from a new identity both succeed and leave exactly one user. |
| `NotesRoute.BadBodyStillProvisions` | src/app/api/notes/route.ts:88-114 | A malformed body from a new identity gets 400, creates the user and no note. |
| `NotesRoute.UnloggableTitleFails` | src/app/api/notes/route.ts:125-151 | A title `{"toString": 1}` makes the log line throw: 500 "Failed to create note" from the outer catch, and no note. |
| `LecturesRoute.ListLectureNotes` | src/app/api/lectures/route.ts:6-12 | Every lecture note, with no owner filter, ordered by `createdAt` non-increasing. |
| `LecturesRoute.Get` | src/app/api/lectures/route.ts:4-20 | 200 with all lecture notes newest first iff the query succeeds, else 500. |
| `LecturesRoute.ReadLectureBody` | src/app/api/lectures/route.ts:24-31 | A body that is not JSON, or is `null`, throws; otherwise subject and content must both be truthy. |
| `LecturesRoute.Post` | src/app/api/lectures/route.ts:22-48 | 201 iff subject and content are non-empty strings and the insert succeeds, adding exactly that record. A missing field gives 400; every other failure, a parse failure included, gives 500; neither inserts. |
| `DiaryRoute.ListDiaryEntries` | src/app/api/diary/route.ts:6-12 | Every diary entry, with no owner filter, ordered by `date` non-increasing. |
| `DiaryRoute.Get` | src/app/api/diary/route.ts:4-20 | 200 with all entries latest first iff the query succeeds, else 500. |
| `DiaryRoute.StoredDate` | src/app/api/diary/route.ts:36 | The stored date is the supplied date when truthy and valid, and the current time when the date is falsy. |
| `DiaryRoute.ReadDiaryBody` | src/app/api/diary/route.ts:24-31 | A body that is not JSON, or is `null`, throws; otherwise the content must be truthy, and the date is read alongside. |
| `DiaryRoute.Post` | src/app/api/diary/route.ts:22-48 | 201 iff the content is a non-empty string, the date is valid and the insert succeeds, adding exactly that entry. Missing content gives 400; every other failure gives 500; neither inserts. |

## Findings

| source | as written | input that shows it | evidently intended | confidence | as-written member | corrected member |
|---|---|---|---|---|---|---|
| src/app/components/VoiceNoteSection.tsx:240 | The result handler is a closure created when recording starts. It tests the `isTitleManuallyEdited` it captured then, not the current flag. | Start recording with an unedited title, type "My title", then a result "hello" arrives: the title becomes "hello" although the flag is set. Symmetrically, a recording started right after a manual edit never generates a title. | A title edited by hand is not regenerated, and a fresh recording generates one (the comment on line 239 and the reset on line 210). | not executed | `VoiceNoteEditor.ManualTitleLostAsWritten` | `VoiceNoteEditor.NoteEditor.OnResult` |

The rest of the model uses `OnResult`. Only `OnResult` keeps the invariant `NoteEditor.Valid`,
which says an unedited title is the generated title of the last recognised transcript.

## Left out

- Timers: the 2-second silence timeout, the `onspeechend` handler that restarts it, and the 3-second success auto-dismiss. These are scheduling, not state logic. The silence callback also reads a stale `isListening`.
- The speech-recognition instance: creating it, stopping it, detaching its handlers, and unmount cleanup. Recognition is reduced to result, error and end events.
- `isLoading` and the buttons it disables. The Save button's disabled condition is JSX, not a handler guard.
- VoiceNoteEditor.NoteEditor.SaveNote: the `async` handler is modelled as one atomic event, with the response as a parameter. In the source it awaits `fetch` between the guard (lines 298-300) and the update, and the title field and recognition stay live meanwhile. Events that arrive during the request are not modelled. The source sends the draft as it was at the click and afterwards resets whatever is current (lines 343-345), so a title typed or a result recognised during the request is neither sent nor kept.
- VoiceNoteEditor.NoteEditor.DeleteNote: the `async` handler is modelled as one atomic event, and events during the request are not modelled. Line 387 tests the note that was open at the click, and the only caller (line 570) passes that note's own id. So in the source a successful delete closes whatever note is open when the response lands, even one opened during the request. The contract closes the open note only if it has the deleted id, which agrees with the source only when nothing happens between click and response.
- The `err instanceof Error` fallback messages. Every failure is given as a message string.
- `formatDate`, the Escape key, the close buttons of the note modal, and all rendering.
- Save's call to `fetchNotes` after success. It is an asynchronous request whose outcome is the separate `FetchNotes` event.
- The identity provider session: the model takes its user id as an optional string. The `X-User-Id` header is trusted exactly as the code trusts it.
- The database client and its singleton (src/app/lib/db.ts). The tables live in memory and ids count from 1.
- Timestamps: `createdAt` comes from a `now` parameter, on the assumption that the schema defaults it to the time of the insert. The schema is not part of this model.
- The `details` field of the 500 bodies and all console logging.
- The race between get-or-create's find and its create. It is a concurrency concern; `Store.Database.InsertUser` rejects a duplicate `clerkId` as the unique constraint would.
- The store's type check on `create`. The model assumes a non-string title, content or subject is rejected (500), because those columns hold text.
- JSON numbers are modelled as integers.
- DiaryRoute.StoredDate: weaker than JavaScript `new Date(value)` for arrays and objects, which the model treats as invalid dates. A string date goes through a `parseDate` parameter in place of JavaScript's date parser.
- Ordering.SortDesc: rows with equal keys keep table order. The database may return them in either order, so the contracts state only ordering and permutation.
- Per-id read, update and delete handlers, and the task handlers, are not part of this model. Neither are src/app/lib/api.ts, the page, the navigation bar, the marketing sections or the Tailwind configuration.
- Strings are sequences of Unicode scalar values. `JsText.Utf16Length` counts UTF-16 code units only where the 100-unit limit uses them.
