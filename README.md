# tgbot_note — a Dafny model of the note store and the private-chat flow

tgbot_note is a Telegram bot that keeps short text notes for each user. A
note is a row of the `note` table, keyed by `(user_id, id)`. A
`before_insert` hook numbers a user's notes 1, 2, 3, … and a delete moves
every later note of that user down by one, so that the ids the user sees
stay a range 1..N. The private-chat handlers lead a user through adding,
listing, deleting and editing notes. aiogram's FSM keeps one stage per user
(`CurrentAction.note`, `waiting_for_del_id`, `waiting_for_change_id`, or
none) together with a small data dictionary.

The project has five modules:

- `Wrappers` (wrappers.dfy): `Option`.
- `PyText` (py_text.dfy): the parts of Python and aiogram the handlers rely
  on. These are `int(text)`, `str(n)`, `str.lower()`, `pat in s`,
  `str.startswith` and the `Command` filter's reading of "/name@bot args".
- `Models` (models.dfy): the schema as a map from key to description, and
  the `set_note_id` hook. The hook is a method that scans the table, proved
  equal to the "largest id plus one" function `NextId`.
- `OrmQuery` (orm_query.dfy): the five queries, and the renumbering
  statement the delete handler issues after `orm_delete_note`.
  - The four statements that change the table are methods of the class
    `NoteTable`. Each one is proved against a function of the old table
    (`Inserted`, `Updated`, `Deleted`, `Renumbered`).
  - The two lookups are a function (`GetNote`) and a scanning method
    (`GetNotes`).
- `UserPrivate` (user_private.dfy) holds the rest:
  - the delete flow for ids inside, above and below the range 1..N;
  - `create_notes_markdown`;
  - the conversation stages and the routing of messages and button presses
    to handlers in registration order;
  - the class `Bot`. It holds the FSM storage, the process-wide slot
    `CurrentAction.note_for_change` and the note table. Its methods are the
    handlers, and two client methods run the edit and delete flows end to
    end.

The model follows the code as written, including three behaviours a user
of the bot would not expect:

- **The edit flow adds a note.** `change_note_process` stores the chosen
  note in the user's FSM data. `added_note_cmd` reads the class attribute
  `note_for_change`, which is only ever assigned `None`, so it calls
  `orm_add_note`.
  The note the user chose keeps its text (`EditFlowAddsNote`).
- **The renumbering runs whether or not note k existed.** For k > N nothing
  moves. For k <= 0 every note moves down by one: the ids become 0..N-1,
  which is no longer a range 1..m (`DeleteFlowNonPositive`). For 1 <= k < N,
  deleting the same k twice deletes two different notes
  (`DeleteFlowRepeated`); for k = N the second delete changes nothing.
- **`orm_get_notes` has no `ORDER BY`.** `GetNotes` promises every row of
  the user exactly once, in no particular order. The listing numbers
  entries by position, not by id (`MarkdownIgnoresIds`).

A non-numeric id makes `int()` raise `ValueError`. That ends the handler
before any change, so the user stays in the same stage and the table is
untouched (the `ValueError` outcome).

In short, the code lists notes in no order; a repeated delete shifts the
ids again; a non-numeric id raises `ValueError`; and the edit flow adds a
note. The note chosen for editing is stored per user, in that user's FSM
data (handlers/user_private.py:131). Only the slot that `added_note_cmd`
reads (handlers/user_private.py:154) is process-wide, and nothing ever
assigns it a value other than `None`.

## Model

| member | source | states |
|---|---|---|
| Models.UserIds | database/models.py:22 | i is one of the returned ids exactly when the table holds a row (u, i); the `where user_id == u` filter of the hook's query |
| Models.MaxOf | database/models.py:22 | the result is an element of the set and no element exceeds it (`func.max`) |
| Models.NextId | database/models.py:22-25 | the new id is above every id the user has, so it never collides with a row; it is 1 when the user has no notes, and otherwise one more than an id the user holds |
| Models.SetNoteId | database/models.py:18-25 | the scan for the user's largest id, followed by `last_id + 1` (1 when there is none), returns exactly `NextId` |
| Models.NextIdIsOneAboveMax | database/models.py:22-25 | if m is the user's largest id, the next id is m + 1 |
| Models.NextIdAfterRange | database/models.py:22-25 | for a user with ids 1..n, the next note gets id n + 1 |
| Models.NextIdOwnRowsOnly | database/models.py:22 | other users' rows never affect a user's next id |
| OrmQuery.Inserted | database/orm_query.py:7-14 | an add inserts exactly one row, at (u, NextId). That key was free before. The row holds the new description, every existing row is kept, and the table grows by one |
| OrmQuery.Updated | database/orm_query.py:33-40 | an update keeps the set of keys. The row (u, k), if present, gets the new description; every other row is unchanged |
| OrmQuery.Deleted | database/orm_query.py:43-48 | a delete removes (u, k) and nothing else. The table shrinks by one only if that row existed |
| OrmQuery.GetNote | database/orm_query.py:25-30 | returns a note exactly when (u, k) is in the table; that note has id k and is a row of u, never another user's note with the same id |
| OrmQuery.GetNotes | database/orm_query.py:17-22 | `IsListing`: the result contains a note exactly when it is a row of user u, with no id repeated; no order is promised |
| OrmQuery.NoteTable.AddNote | database/orm_query.py:7-14 | the table afterwards is `Inserted` of the table before, with the id chosen by the hook |
| OrmQuery.NoteTable.UpdateNote | database/orm_query.py:33-40 | the table afterwards is `Updated` of the table before |
| OrmQuery.NoteTable.DeleteNote | database/orm_query.py:43-48 | the table afterwards is `Deleted` of the table before |
| OrmQuery.FirstNoteGetsOne | database/models.py:25 | a user's first note gets id 1 and is readable as such, whatever other users hold |
| OrmQuery.InsertedOtherUsers | database/models.py:22-25 | an add for one user leaves every other user's ids and next id unchanged |
| OrmQuery.InsertedKeepsRange | database/models.py:22-25 | adding to ids 1..n gives ids 1..n+1, and the new note is n+1 |
| OrmQuery.AddAllNumbersInCallOrder | database/orm_query.py:7-14 | starting from ids 1..n, the adds number their notes n+1, n+2, … in call order. Starting from no notes, N adds give ids 1..N |
| OrmQuery.AddAllKeepsRows | database/orm_query.py:7-14 | a sequence of adds keeps every earlier row with its description and never adds or removes another user's rows |
| OrmQuery.UpdateThenGet | database/orm_query.py:33-40 | after updating an existing note, `orm_get_note` returns the new description under the same id, and no user's ids change |
| OrmQuery.DeleteTwice | database/orm_query.py:43-48 | a second `orm_delete_note` of the same key changes nothing, and the note is no longer found |
| PyText.ParseInt | handlers/user_private.py:101 | `int(text)`: a blank text raises; an accepted text ends, after stripping, in a digit; a negative result needs a leading '-' |
| PyText.IsCommand | handlers/user_private.py:57-58 | aiogram's `Command(name)`: a matching message starts, after leading whitespace, with '/' followed by the name |
| PyText.ContainsItself | handlers/user_private.py:139 | every text contains itself, so the lowered button text matches the `contains` filter |
| PyText.Decimal | handlers/user_private.py:39 | `str(n)` is non-empty, starts with '-' exactly when n is negative, and every other character is a digit |
| PyText.ParseIntDecimal | handlers/user_private.py:101 | `int(str(n)) == n` for every integer n, so a typed id is read back as itself |
| PyText.ParseIntRejects | handlers/user_private.py:101 | a text holding, anywhere, a character that is neither whitespace, a digit, a sign nor '_' (a letter, a '/') makes `int()` raise |
| PyText.Lower | handlers/user_private.py:56 | `str.lower()` keeps the length and lowers each character independently |
| PyText.Contains | handlers/user_private.py:56 | `pat in s` (the `F.text.lower().contains` filters at :56, :73 and :139): a contained pattern is no longer than the text, and the empty pattern is in every text |
| PyText.StartsWith | handlers/user_private.py:91 | `F.data.startswith` (at :91 and :116): a text starts with p exactly when it is p followed by some rest, and then it also contains p |
| PyText.MissingChar | handlers/user_private.py:56 | a text lacking one of a pattern's characters does not contain the pattern (the `.contains` filters) |
| PyText.NotACommand | handlers/user_private.py:57-58 | a text that does not start with whitespace or '/' matches no `Command` filter |
| OrmQuery.Renumbered | handlers/user_private.py:105-109 | the `update ... where user_id == u, id > k ... values(id = id - 1)` statement, on a table without (u, k): other users' rows and u's ids below k stay as they were |
| OrmQuery.NoteTable.Renumber | handlers/user_private.py:105-109 | the table afterwards is `Renumbered` of the table before |
| OrmQuery.RenumberedAt | handlers/user_private.py:105-109 | after the renumbering, id j >= k of u exists exactly when j + 1 existed, and carries that row's description |
| OrmQuery.RenumberedAbove | handlers/user_private.py:105-109 | after the renumbering, id j >= k exists exactly when id j + 1 existed before |
| OrmQuery.RenumberedAboveMoved | handlers/user_private.py:105-109 | the note now at j >= k carries the description that was at j + 1 |
| OrmQuery.RenumberedShiftsDown | handlers/user_private.py:105-109 | on a table without (u, k), the renumbering statement on its own gives the delete-flow result |
| OrmQuery.DeleteFlowIgnoresDeletedRow | handlers/user_private.py:103-109 | the delete-flow result never depends on row (u, k), so deleting it first gives the same result |
| OrmQuery.DeleteThenRenumber | handlers/user_private.py:103-109 | `orm_delete_note` followed by the renumbering is the delete flow: k is gone, later ids move down one with their text, and all other rows stay |
| UserPrivate.DeleteFlowInRange | handlers/user_private.py:98-113 | with ids 1..n and 1 <= k <= n, the delete flow leaves ids 1..n-1 |
| UserPrivate.DeleteFlowPastEnd | handlers/user_private.py:98-113 | with ids 1..n and k > n, the delete flow leaves the table unchanged |
| UserPrivate.DeleteFlowNonPositive | handlers/user_private.py:98-113 | with ids 1..n, n >= 1 and k <= 0, the ids become 0..n-1, which is no longer a range 1..m for any m |
| UserPrivate.DeleteFlowRepeated | handlers/user_private.py:98-113 | after deleting k of 1..n (k < n), id k names the former note k+1, and a second delete of k leaves ids 1..n-2 |
| UserPrivate.NoteEntry | handlers/user_private.py:38-40 | one entry starts with the bold label "<b>position:</b>" and contains the description verbatim, with no HTML escaping |
| UserPrivate.NotesMarkdown | handlers/user_private.py:36-40 | the listing starts with the header "<b>Ваши заметки:</b>", and is the bare header exactly when there are no notes |
| UserPrivate.MarkdownStep | handlers/user_private.py:37-40 | one more note appends exactly one entry, labelled with the new count |
| UserPrivate.ListingShowsEveryNote | handlers/user_private.py:35-41 | every note of the list appears in the listing, as the entry labelled with its position |
| UserPrivate.CreateNotesMarkdown | handlers/user_private.py:35-41 | the loop returns the header followed by one entry per note, labelled 1, 2, … in list order |
| UserPrivate.MarkdownIgnoresIds | handlers/user_private.py:35-41 | two note lists with the same descriptions in the same order render the same, whatever their ids |
| UserPrivate.EntriesIgnoreIds | handlers/user_private.py:37-40 | the entries depend only on the descriptions and their positions |
| UserPrivate.EntryAtPosition | handlers/user_private.py:37-40 | the note at position i is rendered as entry i + 1, directly after the entries of the notes before it |
| UserPrivate.CommonHandler | handlers/user_private.py:51-74 | the stateless handlers, in registration order: only start, menu, back or list; "/start" always wins, and a text containing "помощь" in any letter case reaches the menu unless it is a "/start" command |
| UserPrivate.Route | handlers/user_private.py:51-176 | the first matching message handler. The id handlers fire only in their own stage, `added_note_cmd` only while a note text is awaited, and the "добавить заметку" text only with no state. The start, menu, back and list handlers win in every stage |
| UserPrivate.CallbackRoute | handlers/user_private.py:91-120 | `delete_note_start` is chosen exactly when the data starts with "delete_", in any stage; `change_note_data_callback` exactly when there is no state and the data starts with "change_" but not "delete_"; no other handler is ever chosen, and any other button is not handled |
| UserPrivate.CancelFromAnyStage | handlers/user_private.py:63-64 | "Назад", in any letter case, reaches `back` in every stage |
| UserPrivate.AddButtonOnlyFromIdle | handlers/user_private.py:139-146 | "Добавить заметку" starts a note only with no state; while a note text is awaited it is saved as the note itself, and while an id is awaited it goes to `int()` |
| UserPrivate.AddButtonIsPlain | handlers/user_private.py:56-74 | "Добавить заметку" is no command and is taken by none of the stateless handlers |
| UserPrivate.AddButtonTextMatches | handlers/user_private.py:56-74 | the lowered button text contains none of "помощь", "меню", "все заметки", is not "назад", and does contain "добавить заметку" |
| UserPrivate.ButtonIsNoCommand | handlers/user_private.py:139-140 | "Добавить заметку" matches no `Command` filter |
| UserPrivate.CommandWhileAwaitingId | handlers/user_private.py:98-126 | a '/' command that no stateless handler takes, sent while an id is awaited, reaches the id handler and makes `int()` raise, so "/note" cannot leave that stage |
| UserPrivate.IdTextIsPlain | handlers/user_private.py:56-74 | a typed id is no command and no button text, so it reaches the stage's own handler |
| UserPrivate.PlainTextIsUnhandled | handlers/user_private.py:56-74 | a text that starts with no blank, '/' or 'н', is its own lower case and lacks 'п', 'м' and 'в' matches none of the common filters |
| UserPrivate.Bot.constructor | handlers/user_private.py:48 | no user has a state and `note_for_change` starts as `None` |
| UserPrivate.Bot.Back | handlers/user_private.py:63-70 | with a state, the state and data are cleared; with no state, nothing changes |
| UserPrivate.Bot.DeleteNoteStart | handlers/user_private.py:91-95 | the stage becomes `waiting_for_del_id` and the data is kept |
| UserPrivate.Bot.DeleteNoteProcess | handlers/user_private.py:98-113 | a non-numeric id changes nothing. A numeric id k gives the delete-flow result for k and clears the state |
| UserPrivate.Bot.ChangeNoteDataCallback | handlers/user_private.py:116-120 | the stage becomes `waiting_for_change_id` and the data is kept |
| UserPrivate.Bot.ChangeNoteProcess | handlers/user_private.py:123-135 | the table never changes; a non-numeric id changes nothing. A found note goes into the user's data (not the class slot) and the stage becomes `note`; a missing note clears the state |
| UserPrivate.Bot.NoteCmd | handlers/user_private.py:139-143 | the stage becomes `note` and the data is kept |
| UserPrivate.Bot.AddedNoteCmd | handlers/user_private.py:146-171 | with the class slot set, the note it names is updated; otherwise a note is added. If storage fails, the table is kept. The state is cleared and the slot reset to `None` either way |
| UserPrivate.Bot.GetNodeCmd | handlers/user_private.py:73-88 | with no notes, the answer is "У вас пока нет заметок."; otherwise it is the markdown of some listing that holds each of the user's notes once |
| UserPrivate.Bot.HandleMessage | handlers/user_private.py:51-176 | the message goes to `Route`'s handler. That handler's effect is the one listed above; the stateless handlers change nothing |
| UserPrivate.Bot.HandleCallback | handlers/user_private.py:91-120 | the button goes to `CallbackRoute`'s handler, with that handler's effect |
| UserPrivate.EditFlowAddsNote | handlers/user_private.py:123-171 | "Изменить", an existing id, then a text: a new note is added, and the chosen note keeps its old description |
| UserPrivate.DeleteFlowFromListing | handlers/user_private.py:91-113 | "Удалить" then id k, for ids 1..n: the result is 1..n-1 when 1 <= k <= n; unchanged when k > n; no longer a range 1..m when k <= 0 and n >= 1 |

## Left out

- Sending messages, reply keyboards, inline buttons and the start, menu and help texts are not modelled; a handler's answer is not part of its contract.
- UserPrivate.Bot.HandleMessage: does not return the listing `get_node_cmd` sends; `GetNodeCmd` states it separately.
- Non-text messages are left out: every message is its text. `F.text` and the `.lower()` filters fail on messages without text.
- The `ChatTypeFilter(['private'])` router filter is left out: every message is taken to come from a private chat.
- The `created` and `updated` timestamp columns are left out, because no handler reads them.
- PyText.ParseInt: accepts only the ASCII digits and skips only the six whitespace characters space, \t, \n, \r, \x0b and \x0c. Python's `int()` also accepts other Unicode decimal digits and skips other whitespace, such as \x1c-\x1f and \x85, so `int("1\x1c")` is 1 where `ParseInt` gives `None`. `FirstToken` splits on the same six characters.
- PyText.Lower: lowers only ASCII and basic Cyrillic capitals. Python's full Unicode case mapping is not modelled.
- PyText.IsCommand: the '@mention' part of a command is not checked against the bot's own username.
- Async execution, sessions and transactions are not modelled. Each statement is applied atomically, and the two statements of the delete flow run one after the other with nothing in between.
- The renumbering `UPDATE` is applied as a whole, as a single SQL statement is. A database that checks the primary key row by row during the update could reject it; that is left out.
- Database exceptions are left out everywhere except in `added_note_cmd` (`storageOk`). There the handler catches them; elsewhere they escape the handler and the bot framework logs them.
- UserPrivate.Bot.DeleteNoteProcess: ids outside the database column's integer range are treated as ordinary integers. With a real driver, such an id makes `orm_delete_note` raise, so the stage is kept; the model clears it.
- UserPrivate.Bot.ChangeNoteProcess: ids outside the database column's integer range are treated as ordinary integers. With a real driver, such an id makes `orm_get_note` raise, so the stage is kept; the model clears it or moves to the `note` stage.
- Concurrent messages from several users, and the races they cause on the process-wide `note_for_change` slot, are not modelled: messages are handled one at a time.
- main.py (bot start-up, the database engine and the middleware that supplies the session) is not part of this model.
