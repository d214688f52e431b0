/**
 * The private-chat handlers: the per-user conversation stages, the delete
 * flow with its renumbering, the edit flow, the note listing, and the
 * dispatch of each incoming message or button press to the first handler
 * whose filters match, in registration order.
 */
module UserPrivate {
  import opened Wrappers
  import opened PyText
  import opened Models
  import opened OrmQuery

  // ---------------------------------------------------------------------------
  // The delete flow

  /** With ids 1..n and 1 <= k <= n, the delete flow leaves ids 1..n-1. */
  lemma DeleteFlowInRange(t: Table, u: int, n: int, k: int, r: Table)
    requires Contiguous(t, u, n) && 1 <= k <= n && DeleteFlowResult(t, u, k, r)
    ensures Contiguous(r, u, n - 1)
  {
    forall j ensures Key(u, j) in r <==> 1 <= j <= n - 1 {
      if j < k {
        assert Key(u, j) in r <==> Key(u, j) in t;
      } else {
        assert Key(u, j) in r <==> Key(u, j + 1) in t;
      }
    }
  }

  /** With ids 1..n and k > n, the delete flow changes nothing. */
  lemma DeleteFlowPastEnd(t: Table, u: int, n: int, k: int, r: Table)
    requires Contiguous(t, u, n) && k > n && DeleteFlowResult(t, u, k, r)
    ensures r == t
  {
    forall key | key in t ensures key in r && r[key] == t[key] {
      if key.userId == u {
        assert key.id < k;
        assert Key(u, key.id) in r;
      }
    }
    forall key | key in r ensures key in t {
      if key.userId == u {
        var j := key.id;
        assert Key(u, j) in r;
        assert j >= k ==> Key(u, j + 1) in t;
        assert j < k;
        assert Key(u, j) in t;
      }
    }
  }

  /**
   * With ids 1..n (n >= 1) and k <= 0, no row is deleted but every note moves
   * down: the ids become 0..n-1, which is no longer a range 1..m for any m.
   */
  lemma DeleteFlowNonPositive(t: Table, u: int, n: int, k: int, r: Table)
    requires Contiguous(t, u, n) && n >= 1 && k <= 0 && DeleteFlowResult(t, u, k, r)
    ensures forall j :: Key(u, j) in r <==> 0 <= j < n
    ensures forall m :: !Contiguous(r, u, m)
  {
    forall j ensures Key(u, j) in r <==> 0 <= j < n {
      if j < k {
        assert Key(u, j) !in t;
      } else {
        assert Key(u, j) in r <==> Key(u, j + 1) in t;
      }
    }
    assert Key(u, 0) in r;
  }

  /**
   * The delete flow is not idempotent: after deleting k of 1..n (k < n) the
   * former note k+1 now has id k, so asking to delete k again removes it and
   * leaves ids 1..n-2.
   */
  lemma DeleteFlowRepeated(t: Table, u: int, n: int, k: int, r: Table, r': Table)
    requires Contiguous(t, u, n) && 1 <= k < n
    requires DeleteFlowResult(t, u, k, r) && DeleteFlowResult(r, u, k, r')
    ensures GetNote(r, u, k) == Some(Note(u, k, t[Key(u, k + 1)]))
    ensures Contiguous(r', u, n - 2)
  {
    DeleteFlowInRange(t, u, n, k, r);
    DeleteFlowInRange(r, u, n - 1, k, r');
  }

  // ---------------------------------------------------------------------------
  // The note listing

  const NotesHeader: string := "<b>Ваши заметки:</b>\n\n"
  const NoNotesAnswer: string := "У вас пока нет заметок."

  /** One entry of the listing: a label, then the description in a <pre> block. */
  function NoteEntry(position: int, description: string): (r: string)
    ensures StartsWith(r, "<b>" + Decimal(position) + ":</b>")
    ensures Contains(r, description)
  {
    var head := "<b>" + Decimal(position) + ":</b> \n<pre>";
    assert OccursAt(head + description + "</pre>", description, |head|);
    head + description + "</pre>"
  }

  /** The entries for `notes`, the i-th (from 0) labelled i + 1. */
  function Entries(notes: seq<Note>): (r: string)
    ensures notes != [] ==> r != []
  {
    if notes == [] then ""
    else Entries(notes[..|notes| - 1]) + NoteEntry(|notes|, notes[|notes| - 1].description)
  }

  function NotesMarkdown(notes: seq<Note>): (r: string)
    ensures StartsWith(r, NotesHeader)
    ensures notes == [] <==> r == NotesHeader
  {
    NotesHeader + Entries(notes)
  }

  /** `create_notes_markdown`: the header, then one entry per note appended in a loop. */
  method CreateNotesMarkdown(notes: seq<Note>) returns (markdown: string)
    ensures markdown == NotesMarkdown(notes)
  {
    markdown := NotesHeader;
    for i := 0 to |notes|
      invariant markdown == NotesHeader + Entries(notes[..i])
    {
      MarkdownStep(notes, i);
      markdown := markdown + NoteEntry(i + 1, notes[i].description);
    }
    assert notes[..|notes|] == notes;
  }

  /** One more note appends one more entry, labelled with the new length. */
  lemma MarkdownStep(notes: seq<Note>, i: int)
    requires 0 <= i < |notes|
    ensures NotesHeader + Entries(notes[..i + 1]) == NotesHeader + Entries(notes[..i]) + NoteEntry(i + 1, notes[i].description)
  {
    assert notes[..i + 1][..i] == notes[..i];
  }

  /**
   * The entries are labelled by position, not by `note.id`: two listings with
   * the same descriptions in the same order render identically, whatever
   * their ids.
   */
  lemma {:induction false} MarkdownIgnoresIds(ns: seq<Note>, ms: seq<Note>)
    requires |ns| == |ms|
    requires forall i :: 0 <= i < |ns| ==> ns[i].description == ms[i].description
    ensures NotesMarkdown(ns) == NotesMarkdown(ms)
  {
    EntriesIgnoreIds(ns, ms);
  }

  lemma {:induction false} EntriesIgnoreIds(ns: seq<Note>, ms: seq<Note>)
    requires |ns| == |ms|
    requires forall i :: 0 <= i < |ns| ==> ns[i].description == ms[i].description
    ensures Entries(ns) == Entries(ms)
  {
    if ns != [] {
      EntriesIgnoreIds(ns[..|ns| - 1], ms[..|ms| - 1]);
    }
  }

  /** The note at position i is rendered as entry i + 1, right after the entries before it. */
  lemma {:induction false} EntryAtPosition(ns: seq<Note>, i: int)
    requires 0 <= i < |ns|
    ensures Entries(ns[..i]) + NoteEntry(i + 1, ns[i].description) <= Entries(ns)
  {
    var front := ns[..|ns| - 1];
    if i < |ns| - 1 {
      EntryAtPosition(front, i);
      assert front[..i] == ns[..i];
    } else {
      assert front == ns[..i];
    }
  }

  /** Every note of the list shows up in the listing, as the entry labelled with its position. */
  lemma ListingShowsEveryNote(notes: seq<Note>)
    ensures forall i :: 0 <= i < |notes| ==> Contains(NotesMarkdown(notes), NoteEntry(i + 1, notes[i].description))
  {
    forall i | 0 <= i < |notes| ensures Contains(NotesMarkdown(notes), NoteEntry(i + 1, notes[i].description)) {
      EntryAtPosition(notes, i);
      OccursAfterPrefix(NotesHeader, Entries(notes[..i]), NoteEntry(i + 1, notes[i].description), Entries(notes));
    }
  }

  // ---------------------------------------------------------------------------
  // Conversation state

  /** The FSM state of a user: none, or one of the three `CurrentAction` states. */
  datatype Stage = Idle | NoteText | WaitingForDelId | WaitingForChangeId

  /** The FSM data dict: the keys 'note_for_change' and 'note', each present or not. */
  datatype FsmData = FsmData(noteForChange: Option<Note>, note: Option<string>)

  datatype Session = Session(stage: Stage, data: FsmData)

  /** What `state.clear()` leaves: no state, empty data. */
  const Cleared: Session := Session(Idle, FsmData(None, None))

  /** The handlers, named after the functions they stand for. */
  datatype Handler =
    | ToStart           // start_cmd
    | ToMenu            // menu_cmd
    | ToBack            // back
    | ToGetNotes        // get_node_cmd
    | ToDeleteStart     // delete_note_start (button)
    | ToDeleteProcess   // delete_note_process
    | ToChangeCallback  // change_note_data_callback (button)
    | ToChangeProcess   // change_note_process
    | ToNoteCmd         // note_cmd
    | ToAddedNote       // added_note_cmd
    | ToError           // errror_cmd

  /** Whether a handler that parses an id ran to its end or stopped at `int()`. */
  datatype Outcome = Done | ValueError

  /**
   * The message handlers that have no state filter and are registered before
   * the state-filtered ones: they take their messages in every stage.
   */
  function CommonHandler(text: string): (r: Option<Handler>)
    ensures r.None? || r.value in {ToStart, ToMenu, ToBack, ToGetNotes}
    ensures IsCommand(text, "start") ==> r == Some(ToStart)
    ensures Contains(Lower(text), "помощь") && !IsCommand(text, "start") ==> r == Some(ToMenu)
  {
    var low := Lower(text);
    if IsCommand(text, "start") then Some(ToStart)
    else if IsCommand(text, "help") || IsCommand(text, "menu")
         || Contains(low, "помощь") || Contains(low, "меню") then Some(ToMenu)
    else if low == "назад" || IsCommand(text, "Назад") then Some(ToBack)
    else if IsCommand(text, "get") || Contains(low, "все заметки") then Some(ToGetNotes)
    else None
  }

  /**
   * The first message handler whose filters match, in registration order.
   * Each state-filtered handler fires only in its own stage, and the
   * "добавить заметку" text starts a note only when there is no state.
   */
  function Route(s: Stage, text: string): (h: Handler)
    ensures h == ToDeleteProcess ==> s == WaitingForDelId
    ensures h == ToChangeProcess ==> s == WaitingForChangeId
    ensures h == ToAddedNote ==> s == NoteText
    ensures h == ToNoteCmd ==> s == Idle || IsCommand(text, "note")
    ensures CommonHandler(text).Some? ==> h == CommonHandler(text).value
  {
    match CommonHandler(text)
    case Some(common) => common
    case None =>
      if s == WaitingForDelId then ToDeleteProcess
      else if s == WaitingForChangeId then ToChangeProcess
      else if IsCommand(text, "note") || (s == Idle && Contains(Lower(text), "добавить заметку")) then ToNoteCmd
      else if s == NoteText then ToAddedNote
      else ToError
  }

  /**
   * The callback handler for a button press: "delete_" buttons work in any
   * stage, "change_" buttons only when there is no state.
   */
  function CallbackRoute(s: Stage, data: string): (h: Option<Handler>)
    ensures h == Some(ToDeleteStart) <==> StartsWith(data, "delete_")
    ensures h == Some(ToChangeCallback) <==> s == Idle && StartsWith(data, "change_") && !StartsWith(data, "delete_")
    ensures h.Some? ==> h.value == ToDeleteStart || h.value == ToChangeCallback
  {
    if StartsWith(data, "delete_") then Some(ToDeleteStart)
    else if s == Idle && StartsWith(data, "change_") then Some(ToChangeCallback)
    else None
  }

  /** The reply-keyboard button "Назад", typed in any case, cancels from every stage. */
  lemma CancelFromAnyStage(s: Stage, text: string)
    requires Lower(text) == "назад"
    ensures Route(s, text) == ToBack
  {
    assert LowerChar(text[0]) == 'н';
    forall name: string ensures !IsCommand(text, name) {
      NotACommand(text, name);
    }
    MissingChar("назад", "меню", 'м');
  }

  /**
   * The button text "Добавить заметку" starts a note only when there is no
   * state; while a note text is awaited it is saved as the note itself, and
   * while an id is awaited it is handed to `int()`.
   */
  lemma AddButtonOnlyFromIdle(s: Stage, text: string)
    requires Lower(text) == "добавить заметку"
    ensures Route(s, text) == match s
      case Idle => ToNoteCmd
      case NoteText => ToAddedNote
      case WaitingForDelId => ToDeleteProcess
      case WaitingForChangeId => ToChangeProcess
  {
    AddButtonIsPlain(text);
  }

  /** "Добавить заметку" is no command, and no common handler takes it. */
  lemma AddButtonIsPlain(text: string)
    requires Lower(text) == "добавить заметку"
    ensures CommonHandler(text).None? && !IsCommand(text, "note")
    ensures Contains(Lower(text), "добавить заметку")
  {
    ButtonIsNoCommand(text);
    AddButtonTextMatches();
  }

  /** The lowered button text contains itself and none of the stateless handlers' phrases. */
  lemma AddButtonTextMatches()
    ensures !Contains("добавить заметку", "помощь") && !Contains("добавить заметку", "меню")
    ensures !Contains("добавить заметку", "все заметки") && "добавить заметку" != "назад"
    ensures Contains("добавить заметку", "добавить заметку")
  {
    MissingChar("добавить заметку", "помощь", 'п');
    MissingChar("добавить заметку", "меню", 'ю');
    MissingChar("добавить заметку", "все заметки", 'с');
    ContainsItself("добавить заметку");
  }

  lemma ButtonIsNoCommand(text: string)
    requires Lower(text) == "добавить заметку"
    ensures forall name: string :: !IsCommand(text, name)
  {
    assert Lower(text)[0] == LowerChar(text[0]) == 'д';
    forall name: string ensures !IsCommand(text, name) {
      NotACommand(text, name);
    }
  }

  /**
   * A '/'-command that no common handler takes, sent while an id is awaited,
   * goes to the id handler and fails at `int()`: "/note" cannot leave that stage.
   */
  lemma CommandWhileAwaitingId(s: Stage, text: string)
    requires s == WaitingForDelId || s == WaitingForChangeId
    requires text != [] && text[0] == '/' && CommonHandler(text).None?
    ensures Route(s, text) == (if s == WaitingForDelId then ToDeleteProcess else ToChangeProcess)
    ensures ParseInt(text) == None
  {
    ParseIntRejects(text, 0);
  }

  /** An id typed as digits is no command and no button text: it reaches the stage's handler. */
  lemma IdTextIsPlain(n: int)
    ensures CommonHandler(Decimal(n)).None?
  {
    var text := Decimal(n);
    assert forall i :: 0 <= i < |text| ==> text[i] == '-' || IsDigit(text[i]);
    assert Lower(text) == text;
    PlainTextIsUnhandled(text);
  }

  /** Text that starts with no blank, '/' or 'н', is its own lower case and lacks 'п', 'м' and 'в' reaches no common handler. */
  lemma PlainTextIsUnhandled(text: string)
    requires text != [] && !IsSpace(text[0]) && text[0] != '/' && text[0] != 'н'
    requires Lower(text) == text && 'п' !in text && 'м' !in text && 'в' !in text
    ensures CommonHandler(text).None?
  {
    forall name: string ensures !IsCommand(text, name) {
      NotACommand(text, name);
    }
    MissingChar(text, "помощь", 'п');
    MissingChar(text, "меню", 'м');
    MissingChar(text, "все заметки", 'в');
  }

  // ---------------------------------------------------------------------------
  // The bot: FSM storage, the shared class attribute, and the database

  class Bot {
    /** The note table the handlers reach through their session. */
    const notes: NoteTable
    /** aiogram's FSM storage, per user; a user without an entry has no state and no data. */
    var sessions: map<int, Session>
    /** `CurrentAction.note_for_change`: a single slot for the whole process. */
    var noteForChange: Option<Note>

    constructor (notes: NoteTable)
      ensures this.notes == notes && sessions == map[] && noteForChange == None
    {
      this.notes := notes;
      sessions := map[];
      noteForChange := None;
    }

    function StageOf(u: int): Stage
      reads this
    {
      if u in sessions then sessions[u].stage else Idle
    }

    function DataOf(u: int): FsmData
      reads this
    {
      if u in sessions then sessions[u].data else FsmData(None, None)
    }

    /** `back`: clears the state and data when there is a state. */
    method Back(u: int)
      modifies this
      ensures StageOf(u) == Idle
      ensures sessions == if old(StageOf(u)) == Idle then old(sessions) else old(sessions)[u := Cleared]
      ensures noteForChange == old(noteForChange)
    {
      if StageOf(u) != Idle {
        sessions := sessions[u := Cleared];
      }
    }

    /** `delete_note_start`: awaits an id to delete, keeping the data. */
    method DeleteNoteStart(u: int)
      modifies this
      ensures sessions == old(sessions)[u := Session(WaitingForDelId, old(DataOf(u)))]
      ensures noteForChange == old(noteForChange)
    {
      sessions := sessions[u := Session(WaitingForDelId, DataOf(u))];
    }

    /**
     * `delete_note_process`: `int(text)`; on success the delete flow for that
     * id, then the state is cleared. On `ValueError` nothing changes.
     */
    method DeleteNoteProcess(u: int, text: string) returns (r: Outcome)
      modifies this, notes
      ensures ParseInt(text).None? ==> r == ValueError && sessions == old(sessions) && notes.rows == old(notes.rows)
      ensures ParseInt(text).Some? ==> r == Done && sessions == old(sessions)[u := Cleared]
      ensures ParseInt(text).Some? ==> DeleteFlowResult(old(notes.rows), u, ParseInt(text).value, notes.rows)
      ensures noteForChange == old(noteForChange)
    {
      var parsed := ParseInt(text);
      if parsed.None? {
        return ValueError;
      }
      var k := parsed.value;
      ghost var before := notes.rows;
      notes.DeleteNote(u, k);
      notes.Renumber(u, k);
      DeleteThenRenumber(before, u, k);
      sessions := sessions[u := Cleared];
      r := Done;
    }

    /** `change_note_data_callback`: awaits an id to change, keeping the data. */
    method ChangeNoteDataCallback(u: int)
      modifies this
      ensures sessions == old(sessions)[u := Session(WaitingForChangeId, old(DataOf(u)))]
      ensures noteForChange == old(noteForChange)
    {
      sessions := sessions[u := Session(WaitingForChangeId, DataOf(u))];
    }

    /**
     * `change_note_process`: `int(text)`, then `orm_get_note`. A found note is
     * stored in the user's FSM data (not in `noteForChange`) and a note text
     * is awaited; otherwise the state is cleared. The table never changes.
     */
    method ChangeNoteProcess(u: int, text: string) returns (r: Outcome)
      modifies this
      ensures ParseInt(text).None? ==> r == ValueError && sessions == old(sessions)
      ensures ParseInt(text).Some? ==> r == Done
      ensures ParseInt(text).Some? && Key(u, ParseInt(text).value) in notes.rows ==>
        sessions == old(sessions)[u := Session(NoteText,
          old(DataOf(u)).(noteForChange := GetNote(notes.rows, u, ParseInt(text).value)))]
      ensures ParseInt(text).Some? && Key(u, ParseInt(text).value) !in notes.rows ==>
        sessions == old(sessions)[u := Cleared]
      ensures noteForChange == old(noteForChange)
    {
      var parsed := ParseInt(text);
      if parsed.None? {
        return ValueError;
      }
      var found := GetNote(notes.rows, u, parsed.value);
      if found.Some? {
        sessions := sessions[u := Session(StageOf(u), DataOf(u).(noteForChange := found))];
        sessions := sessions[u := Session(NoteText, DataOf(u))];
      } else {
        sessions := sessions[u := Cleared];
      }
      r := Done;
    }

    /** `note_cmd`: awaits the text of a note, keeping the data. */
    method NoteCmd(u: int)
      modifies this
      ensures sessions == old(sessions)[u := Session(NoteText, old(DataOf(u)))]
      ensures noteForChange == old(noteForChange)
    {
      sessions := sessions[u := Session(NoteText, DataOf(u))];
    }

    /**
     * `added_note_cmd`: stores the text under 'note', then updates the note
     * named by `noteForChange` if that slot is set and adds a new note if
     * not. `storageOk` is false when the database call raises; the table is
     * then left as it was. On both paths the state is cleared and the slot
     * reset to `None`.
     */
    method AddedNoteCmd(u: int, text: string, storageOk: bool)
      modifies this, notes
      ensures sessions == old(sessions)[u := Cleared]
      ensures noteForChange == None
      ensures !storageOk ==> notes.rows == old(notes.rows)
      ensures storageOk && old(noteForChange).None? ==> notes.rows == Inserted(old(notes.rows), u, text)
      ensures storageOk && old(noteForChange).Some? ==>
        notes.rows == Updated(old(notes.rows), u, old(noteForChange).value.id, text)
    {
      sessions := sessions[u := Session(StageOf(u), DataOf(u).(note := Some(text)))];
      var data := DataOf(u);
      var target := noteForChange;
      if storageOk {
        if target.Some? {
          notes.UpdateNote(u, target.value.id, data.note.value);
        } else {
          notes.AddNote(u, data.note.value);
        }
      }
      sessions := sessions[u := Cleared];
      noteForChange := None;
    }

    /** `get_node_cmd`: the listing of the user's notes, or the "no notes yet" answer. */
    method GetNodeCmd(u: int) returns (answer: string)
      ensures UserIds(notes.rows, u) == {} ==> answer == NoNotesAnswer
      ensures UserIds(notes.rows, u) != {} ==>
        exists listing :: IsListing(listing, notes.rows, u) && answer == NotesMarkdown(listing)
    {
      var listing := GetNotes(notes.rows, u);
      assert IsListing(listing, notes.rows, u);
      if listing == [] {
        assert UserIds(notes.rows, u) == {} by {
          forall i | i in UserIds(notes.rows, u) ensures false {
            assert IsRowOf(notes.rows, u, Note(u, i, notes.rows[Key(u, i)]));
          }
        }
        answer := NoNotesAnswer;
      } else {
        assert listing[0] in listing;
        assert Key(u, listing[0].id) in notes.rows;
        answer := CreateNotesMarkdown(listing);
      }
    }

    /** A message from user `u`, handed to the first handler whose filters match. */
    method HandleMessage(u: int, text: string, storageOk: bool) returns (h: Handler, r: Outcome)
      modifies this, notes
      ensures h == Route(old(StageOf(u)), text)
      ensures h in {ToStart, ToMenu, ToGetNotes, ToError} ==>
        sessions == old(sessions) && notes.rows == old(notes.rows) && noteForChange == old(noteForChange)
      ensures h == ToBack ==> StageOf(u) == Idle && notes.rows == old(notes.rows)
      ensures h == ToBack ==>
        sessions == (if old(StageOf(u)) == Idle then old(sessions) else old(sessions)[u := Cleared])
      ensures h == ToDeleteProcess && ParseInt(text).None? ==>
        r == ValueError && sessions == old(sessions) && notes.rows == old(notes.rows)
      ensures h == ToDeleteProcess && ParseInt(text).Some? ==>
        sessions == old(sessions)[u := Cleared] &&
        DeleteFlowResult(old(notes.rows), u, ParseInt(text).value, notes.rows)
      ensures h == ToChangeProcess ==> notes.rows == old(notes.rows)
      ensures h == ToChangeProcess && ParseInt(text).None? ==> r == ValueError && sessions == old(sessions)
      ensures h == ToChangeProcess && ParseInt(text).Some? && Key(u, ParseInt(text).value) in notes.rows ==>
        sessions == old(sessions)[u := Session(NoteText,
          old(DataOf(u)).(noteForChange := GetNote(notes.rows, u, ParseInt(text).value)))]
      ensures h == ToChangeProcess && ParseInt(text).Some? && Key(u, ParseInt(text).value) !in notes.rows ==>
        sessions == old(sessions)[u := Cleared]
      ensures h == ToNoteCmd ==>
        sessions == old(sessions)[u := Session(NoteText, old(DataOf(u)))] && notes.rows == old(notes.rows)
      ensures h == ToAddedNote ==> sessions == old(sessions)[u := Cleared] && noteForChange == None
      ensures h == ToAddedNote && !storageOk ==> notes.rows == old(notes.rows)
      ensures h == ToAddedNote && storageOk && old(noteForChange).None? ==>
        notes.rows == Inserted(old(notes.rows), u, text)
      ensures h == ToAddedNote && storageOk && old(noteForChange).Some? ==>
        notes.rows == Updated(old(notes.rows), u, old(noteForChange).value.id, text)
      ensures h != ToAddedNote ==> noteForChange == old(noteForChange)
    {
      h := Route(StageOf(u), text);
      r := Done;
      match h {
        case ToBack => Back(u);
        case ToGetNotes => var _ := GetNodeCmd(u);
        case ToDeleteProcess => r := DeleteNoteProcess(u, text);
        case ToChangeProcess => r := ChangeNoteProcess(u, text);
        case ToNoteCmd => NoteCmd(u);
        case ToAddedNote => AddedNoteCmd(u, text, storageOk);
        case _ =>
      }
    }

    /** A button press by user `u` with callback data `data`. */
    method HandleCallback(u: int, data: string) returns (h: Option<Handler>)
      modifies this
      ensures h == CallbackRoute(old(StageOf(u)), data)
      ensures h == Some(ToDeleteStart) ==> sessions == old(sessions)[u := Session(WaitingForDelId, old(DataOf(u)))]
      ensures h == Some(ToChangeCallback) ==>
        sessions == old(sessions)[u := Session(WaitingForChangeId, old(DataOf(u)))]
      ensures h.None? ==> sessions == old(sessions)
      ensures noteForChange == old(noteForChange)
    {
      h := CallbackRoute(StageOf(u), data);
      if h == Some(ToDeleteStart) {
        DeleteNoteStart(u);
      } else if h == Some(ToChangeCallback) {
        ChangeNoteDataCallback(u);
      }
    }
  }

  // ---------------------------------------------------------------------------
  // The edit flow end to end

  /**
   * A user with no state presses "Изменить", sends the id of one of their
   * notes and then a replacement text. `change_note_process` stored the note
   * in the user's FSM data, but `added_note_cmd` reads the class attribute,
   * which is still `None`: the "edit" adds a new note and the chosen note
   * keeps its old description.
   */
  method EditFlowAddsNote(bot: Bot, u: int, k: int, text: string)
    requires bot.noteForChange == None && bot.StageOf(u) == Idle
    requires Key(u, k) in bot.notes.rows
    requires CommonHandler(text).None? && !IsCommand(text, "note")
    modifies bot, bot.notes
    ensures bot.notes.rows == Inserted(old(bot.notes.rows), u, text)
    ensures bot.notes.rows[Key(u, k)] == old(bot.notes.rows[Key(u, k)])
    ensures bot.StageOf(u) == Idle && bot.noteForChange == None
  {
    assert "change_"[0] != "delete_"[0];
    assert "change_"[..|"change_"|] == "change_";
    var pressed := bot.HandleCallback(u, "change_");
    assert pressed == Some(ToChangeCallback);
    assert bot.StageOf(u) == WaitingForChangeId;

    IdTextIsPlain(k);
    ParseIntDecimal(k);
    var routed, outcome := bot.HandleMessage(u, Decimal(k), true);
    assert routed == ToChangeProcess;
    assert bot.StageOf(u) == NoteText;

    routed, outcome := bot.HandleMessage(u, text, true);
    assert routed == ToAddedNote;
  }

  /**
   * A user with ids 1..n sends "Удалить" and then the id k: the user's ids
   * become 1..n-1 when 1 <= k <= n, stay 1..n when k > n, and stop being a
   * range 1..m when k <= 0 and n >= 1.
   */
  method DeleteFlowFromListing(bot: Bot, u: int, n: int, k: int)
    requires Contiguous(bot.notes.rows, u, n)
    modifies bot, bot.notes
    ensures bot.StageOf(u) == Idle
    ensures 1 <= k <= n ==> Contiguous(bot.notes.rows, u, n - 1)
    ensures k > n ==> bot.notes.rows == old(bot.notes.rows)
    ensures k <= 0 && n >= 1 ==> forall m :: !Contiguous(bot.notes.rows, u, m)
  {
    var pressed := bot.HandleCallback(u, "delete_");
    IdTextIsPlain(k);
    ParseIntDecimal(k);
    var routed, outcome := bot.HandleMessage(u, Decimal(k), true);
    assert routed == ToDeleteProcess;
    ghost var t := old(bot.notes.rows);
    if 1 <= k <= n {
      DeleteFlowInRange(t, u, n, k, bot.notes.rows);
    } else if k > n {
      DeleteFlowPastEnd(t, u, n, k, bot.notes.rows);
    } else if n >= 1 {
      DeleteFlowNonPositive(t, u, n, k, bot.notes.rows);
    }
  }
}
