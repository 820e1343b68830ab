/**
 * The voice-note editor component: recording state, the live transcript, the derived title,
 * the local list of the user's notes and the user-facing error and success messages. The
 * browser's speech recognition is reduced to events carrying transcript segments, and each
 * network call to its outcome.
 */
module VoiceNoteEditor {
  import opened Optional
  import opened JsText
  import opened TitleHeuristic

  /** A note as the client holds it. */
  datatype Note = Note(id: int, title: string, content: string, createdAt: string, userId: string)

  /** The JSON body a save sends to POST /api/notes. */
  datatype NoteDraft = NoteDraft(title: string, content: string)

  /** What came back from POST /api/notes; errorField is the `error` of the reply body ("" when absent). */
  datatype SaveResponse = Saved | SaveRejected(errorField: string)

  /** What came back from GET /api/notes; reason is the message of whatever failed. */
  datatype FetchResponse = Fetched(data: seq<Note>) | FetchUnauthorized | FetchFailed(reason: string)

  const SpeechUnsupported := "Speech recognition is not supported in your browser. Please try Chrome, Edge, or Safari."
  const SignInToSave := "You must be signed in to save notes"
  const EmptyNote := "Title and content cannot be empty"
  const SaveFailedDefault := "Failed to save note"
  const NoteSaved := "Note saved successfully!"
  const SignInToDelete := "You must be signed in to delete notes"
  const DeleteFailed := "Failed to delete note. Please try again."
  const NoteDeleted := "Note deleted successfully!"
  const SignInToFetch := "You must be signed in to access your notes."
  const FetchUnauthorizedMessage := "You must be signed in to access your notes. Please sign out and sign back in if this persists."

  /** The text of a recognition error event with error code `code`. */
  function RecognitionErrorMessage(code: string): string {
    "Speech recognition error: " + code
  }

  /** The message shown for a rejected save: the server's `error`, or a default when it has none. */
  function SaveRejectedMessage(errorField: string): (m: string)
    ensures m != ""
    ensures errorField != "" ==> m == errorField
  {
    if errorField != "" then errorField else SaveFailedDefault
  }

  /** The body a save sends: the trimmed title and transcript, when neither is blank. */
  function DraftToSend(title: string, transcript: string): (draft: Option<NoteDraft>)
    ensures draft.Some? <==> Trim(title) != "" && Trim(transcript) != ""
    ensures draft.Some? ==> draft.value == NoteDraft(Trim(title), Trim(transcript))
  {
    var trimmedTitle, trimmedContent := Trim(title), Trim(transcript);
    if trimmedTitle == "" || trimmedContent == "" then None
    else Some(NoteDraft(trimmedTitle, trimmedContent))
  }

  /** The transcript of a result event: the best alternative of every result, concatenated. */
  function Transcription(segments: seq<string>): (r: string)
    ensures r == "" <==> forall i :: 0 <= i < |segments| ==> segments[i] == ""
    ensures segments != [] ==> segments[0] <= r
  {
    if segments == [] then "" else segments[0] + Transcription(segments[1..])
  }

  /** The transcript of results split in two is the two transcripts concatenated. */
  lemma {:induction false} TranscriptionAppend(a: seq<string>, b: seq<string>)
    ensures Transcription(a + b) == Transcription(a) + Transcription(b)
  {
    if a == [] {
      assert a + b == b;
    } else {
      assert (a + b)[0] == a[0] && (a + b)[1..] == a[1..] + b;
      TranscriptionAppend(a[1..], b);
    }
  }

  /** `notes.filter(note => note.id !== id)`. */
  function WithoutNote(notes: seq<Note>, id: int): (r: seq<Note>)
    ensures forall n :: n in r <==> n in notes && n.id != id
    ensures |r| <= |notes|
  {
    if notes == [] then []
    else (if notes[0].id == id then [] else [notes[0]]) + WithoutNote(notes[1..], id)
  }

  /** Filtering keeps the order: filtering a concatenation filters each part in place. */
  lemma {:induction false} WithoutNoteAppend(a: seq<Note>, b: seq<Note>, id: int)
    ensures WithoutNote(a + b, id) == WithoutNote(a, id) + WithoutNote(b, id)
  {
    if a == [] {
      assert a + b == b;
    } else {
      assert (a + b)[0] == a[0] && (a + b)[1..] == a[1..] + b;
      WithoutNoteAppend(a[1..], b, id);
    }
  }

  /** A list holding no note with the id is left exactly as it was. */
  lemma {:induction false} WithoutNoteAbsent(notes: seq<Note>, id: int)
    requires forall n :: n in notes ==> n.id != id
    ensures WithoutNote(notes, id) == notes
  {
    if notes != [] {
      assert notes[0] in notes;
      WithoutNoteAbsent(notes[1..], id);
    }
  }

  /** Removing the same id twice is the same as removing it once. */
  lemma WithoutNoteIdempotent(notes: seq<Note>, id: int)
    ensures WithoutNote(WithoutNote(notes, id), id) == WithoutNote(notes, id)
  {
    WithoutNoteAbsent(WithoutNote(notes, id), id);
  }

  /** A single word with no sentence terminator is its own title. */
  lemma SingleWordTitle(w: string)
    requires w != "" && ' ' !in w
    requires forall i :: 0 <= i < |w| ==> !IsTerminator(w[i])
    ensures GenerateTitle(w) == w
  {
    SplitWord(w);
    WordRule(w);
  }

  class NoteEditor {
    var notes: seq<Note>
    var isListening: bool
    var transcript: string
    var title: string
    var selectedNote: Option<Note>
    var isTitleManuallyEdited: bool
    var error: Option<string>
    var successMessage: Option<string>
    /**
     * The manual-edit flag as the result handler installed by the last start sees it: the
     * handler closes over the value the component had when recording was started.
     */
    var handlerSeesManualEdit: bool
    /**
     * The transcript of the last recognition result that produced text since the draft was
     * last cleared. Typing into the content box changes `transcript` but not this.
     */
    ghost var recognized: string

    /**
     * Until the title is edited by hand, it is the title generated from the last recognised
     * transcript ("" when nothing has been recognised since the draft was cleared).
     */
    ghost predicate Valid()
      reads this
    {
      !isTitleManuallyEdited ==> title == GenerateTitle(recognized)
    }

    constructor ()
      ensures Valid()
      ensures notes == [] && !isListening && transcript == "" && title == ""
      ensures selectedNote == None && !isTitleManuallyEdited
      ensures error == None && successMessage == None
    {
      notes := [];
      isListening := false;
      transcript := "";
      title := "";
      selectedNote := None;
      isTitleManuallyEdited := false;
      error := None;
      successMessage := None;
      handlerSeesManualEdit := false;
      recognized := "";
    }

    /**
     * The record button. While listening it stops; otherwise it clears the draft and, when the
     * browser has speech recognition, starts listening with fresh handlers.
     */
    method ToggleListening(speechSupported: bool)
      requires Valid()
      modifies this
      ensures Valid()
      ensures successMessage == None && notes == old(notes) && selectedNote == old(selectedNote)
      ensures old(isListening) ==>
        && !isListening && error == None
        && transcript == old(transcript) && title == old(title)
        && isTitleManuallyEdited == old(isTitleManuallyEdited)
        && handlerSeesManualEdit == old(handlerSeesManualEdit)
      ensures !old(isListening) ==>
        && transcript == "" && title == "" && !isTitleManuallyEdited
        && isListening == speechSupported
        && error == (if speechSupported then None else Some(SpeechUnsupported))
        && handlerSeesManualEdit == (if speechSupported then old(isTitleManuallyEdited) else old(handlerSeesManualEdit))
    {
      error := None;
      successMessage := None;
      if isListening {
        isListening := false;
      } else {
        var flagAtClick := isTitleManuallyEdited;
        ClearDraft();
        if speechSupported {
          handlerSeesManualEdit := flagAtClick;
          isListening := true;
        } else {
          error := Some(SpeechUnsupported);
        }
      }
    }

    /** Empties the draft: no transcript, no title, and the title no longer counts as edited. */
    method ClearDraft()
      modifies this`transcript, this`title, this`isTitleManuallyEdited, this`recognized
      ensures Valid()
      ensures transcript == "" && title == "" && !isTitleManuallyEdited
    {
      transcript := "";
      title := "";
      isTitleManuallyEdited := false;
      recognized := "";
    }

    /**
     * A recognition result carrying `segments`: the transcript becomes their concatenation, and a
     * non-empty transcript regenerates the title unless the title was edited by hand.
     */
    method OnResult(segments: seq<string>)
      requires Valid()
      modifies this`transcript, this`title, this`recognized
      ensures Valid()
      ensures transcript == Transcription(segments)
      ensures title == if transcript != "" && !isTitleManuallyEdited then GenerateTitle(transcript) else old(title)
      ensures isTitleManuallyEdited ==> title == old(title)
    {
      var transcription := Transcription(segments);
      transcript := transcription;
      if transcription != "" {
        recognized := transcription;
        if !isTitleManuallyEdited {
          title := GenerateTitle(transcription);
        }
      }
    }

    /**
     * The result handler as the component installs it: it tests the manual-edit flag it closed
     * over when recording started, not the current one.
     */
    method OnResultAsWritten(segments: seq<string>)
      modifies this`transcript, this`title
      ensures transcript == Transcription(segments)
      ensures title == if transcript != "" && !handlerSeesManualEdit then GenerateTitle(transcript) else old(title)
    {
      var transcription := Transcription(segments);
      transcript := transcription;
      if transcription != "" && !handlerSeesManualEdit {
        title := GenerateTitle(transcription);
      }
    }

    /** A recognition error event with error code `code`. */
    method OnError(code: string)
      modifies this`error, this`isListening
      ensures error == Some(RecognitionErrorMessage(code)) && !isListening
    {
      error := Some(RecognitionErrorMessage(code));
      isListening := false;
    }

    /** The recognition end event. */
    method OnEnd()
      modifies this`isListening
      ensures !isListening
    {
      isListening := false;
    }

    /** The user types `value` into the title field. */
    method EditTitle(value: string)
      modifies this`title, this`isTitleManuallyEdited
      ensures Valid()
      ensures title == value && isTitleManuallyEdited
    {
      title := value;
      isTitleManuallyEdited := true;
    }

    /**
     * The user types `value` into the content box: the transcript changes and the title, edited
     * or not, stays as it was.
     */
    method EditTranscript(value: string)
      requires Valid()
      modifies this`transcript
      ensures Valid()
      ensures transcript == value
    {
      transcript := value;
    }

    /** A click on a note card opens it. */
    method SelectNote(note: Note)
      modifies this`selectedNote
      ensures selectedNote == Some(note)
    {
      selectedNote := Some(note);
    }

    /**
     * The save button. Without a signed-in user, or with a title or transcript that is blank
     * after trimming, it only reports an error and sends nothing. Otherwise it sends the trimmed
     * title and transcript; a successful save stops recording and clears the draft.
     */
    method SaveNote(signedIn: bool, response: SaveResponse) returns (sent: Option<NoteDraft>)
      requires Valid()
      modifies this`error, this`isListening, this`transcript, this`title
      modifies this`isTitleManuallyEdited, this`successMessage, this`recognized
      ensures Valid()
      ensures sent == if signedIn then DraftToSend(old(title), old(transcript)) else None
      ensures sent.None? ==>
        && error == Some(if signedIn then EmptyNote else SignInToSave)
        && isListening == old(isListening) && transcript == old(transcript) && title == old(title)
        && isTitleManuallyEdited == old(isTitleManuallyEdited) && successMessage == old(successMessage)
      ensures sent.Some? && response.Saved? ==>
        && error == None && !isListening && transcript == "" && title == ""
        && !isTitleManuallyEdited && successMessage == Some(NoteSaved)
      ensures sent.Some? && response.SaveRejected? ==>
        && error == Some(SaveRejectedMessage(response.errorField))
        && isListening == old(isListening) && transcript == old(transcript) && title == old(title)
        && isTitleManuallyEdited == old(isTitleManuallyEdited) && successMessage == old(successMessage)
    {
      if !signedIn {
        error := Some(SignInToSave);
        return None;
      }
      sent := DraftToSend(title, transcript);
      if sent.None? {
        error := Some(EmptyNote);
        return;
      }
      error := None;
      match response
      case SaveRejected(errorField) =>
        error := Some(SaveRejectedMessage(errorField));
      case Saved =>
        if isListening {
          isListening := false;
        }
        ClearDraft();
        successMessage := Some(NoteSaved);

    }

    /**
     * Deleting the note with id `id`. On success the note leaves the local list, every other
     * note stays in its order, and an open note is closed only if it was the deleted one.
     */
    method DeleteNote(signedIn: bool, id: int, deleted: bool)
      modifies this`notes, this`selectedNote, this`error, this`successMessage
      ensures !signedIn ==>
        && error == Some(SignInToDelete) && notes == old(notes)
        && selectedNote == old(selectedNote) && successMessage == old(successMessage)
      ensures signedIn && deleted ==>
        && notes == WithoutNote(old(notes), id)
        && selectedNote == (if old(selectedNote).Some? && old(selectedNote).value.id == id then None else old(selectedNote))
        && error == None && successMessage == Some(NoteDeleted)
      ensures signedIn && !deleted ==>
        && error == Some(DeleteFailed) && notes == old(notes)
        && selectedNote == old(selectedNote) && successMessage == old(successMessage)
    {
      if !signedIn {
        error := Some(SignInToDelete);
        return;
      }
      error := None;
      if !deleted {
        error := Some(DeleteFailed);
        return;
      }
      notes := WithoutNote(notes, id);
      if selectedNote.Some? && selectedNote.value.id == id {
        selectedNote := None;
      }
      successMessage := Some(NoteDeleted);
    }

    /** Loading the user's notes from the server into the local list. */
    method FetchNotes(signedIn: bool, response: FetchResponse)
      modifies this`notes, this`error
      ensures !signedIn ==> error == Some(SignInToFetch) && notes == old(notes)
      ensures signedIn ==> match response
        case Fetched(data) => notes == data && error == old(error)
        case FetchUnauthorized => notes == [] && error == Some(FetchUnauthorizedMessage)
        case FetchFailed(reason) => notes == [] && error == Some("Failed to load notes: " + reason)
    {
      if !signedIn {
        error := Some(SignInToFetch);
        return;
      }
      match response
      case Fetched(data) =>
        notes := data;
      case FetchUnauthorized =>
        error := Some(FetchUnauthorizedMessage);
        notes := [];
      case FetchFailed(reason) =>
        error := Some("Failed to load notes: " + reason);
        notes := [];
    }
  }

  /**
   * As written: a title typed during a recording that began with an unedited title is
   * overwritten by the next recognition result.
   */
  method ManualTitleLostAsWritten() returns (shown: string, editedFlag: bool)
    ensures shown == "hello" && editedFlag
  {
    var editor := new NoteEditor();
    editor.ToggleListening(true);
    editor.EditTitle("My title");
    editor.OnResultAsWritten(["hello"]);
    assert Transcription(["hello"]) == "hello" + Transcription([]) == "hello";
    SingleWordTitle("hello");
    assert editor.title == "hello";
    shown, editedFlag := editor.title, editor.isTitleManuallyEdited;
  }

  /**
   * As written, the other half: a recording started right after a manual edit installs a handler
   * that still sees the edit, so its results never generate a title.
   */
  method FreshRecordingUntitledAsWritten() returns (shown: string, editedFlag: bool)
    ensures shown == "" && !editedFlag
  {
    var editor := new NoteEditor();
    editor.EditTitle("Mine");
    editor.ToggleListening(true);
    editor.OnResultAsWritten(["hello"]);
    shown, editedFlag := editor.title, editor.isTitleManuallyEdited;
  }

  /**
   * Content typed into an empty draft is not enough to save: the title stays blank, so the
   * save is refused before anything is sent.
   */
  method TypedContentNeedsTitle() returns (sent: Option<NoteDraft>, shownError: Option<string>)
    ensures sent == None && shownError == Some(EmptyNote)
  {
    var editor := new NoteEditor();
    editor.EditTranscript("abc");
    sent := editor.SaveNote(true, Saved);
    shownError := editor.error;
  }

  /** With the current flag consulted, the typed title survives the next recognition result. */
  method ManualTitleKept() returns (shown: string)
    ensures shown == "My title"
  {
    var editor := new NoteEditor();
    editor.ToggleListening(true);
    editor.EditTitle("My title");
    editor.OnResult(["hello"]);
    shown := editor.title;
  }
}
