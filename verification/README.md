# Notes API: in-memory store and handler decisions, in Dafny

This project models the core of a small note-taking REST service.

- **The note store** (`contracts/models/Note.js`) keeps one array of notes `{id, title, content, createdAt, updatedAt}`. Its operations are:
  - create, which appends;
  - list, which returns a copy;
  - find by id, a linear scan;
  - update by id, which replaces in place;
  - delete by id, which splices the note out;
  - count and clear.
- **The request handlers** (`contracts/controllers/noteController.js`) validate the request, call the store and answer with a status code. With the HTTP plumbing taken away, each handler becomes a method from (store, request inputs) to (status, payload), and it changes the store only on its success path.

Two modules:

- `NoteModel` (`note_model.dfy`) holds the `Note` record and the spec functions for the scans: `IndexOf` is `findIndex`, `Lookup` is `find`. It also holds lemmas about appending, replacing and removing entries, and the class `NoteStore`. The class holds `notes: seq<Note>`, and each mutating method states the whole new sequence in terms of the old one. Its invariant `Valid()` says that no two stored notes share an id. The one loop, the scan in `FindIndex`, is proved equal to `IndexOf`.
- `NoteController` (`note_controller.dfy`) holds the handlers as methods that take the store. It also holds the validation predicates (`ValidId`, `MissesBoth`), the `filter(...).length` statistics (`Filter`, `Tally`) and two scenario methods that drive the handlers end to end.

The random id from `uuidv4()` and the clock reading are method parameters. A new id is assumed to be well-formed and not held by any stored note.

Three behaviours of the code are worth stating:

- The update handler rejects a body whose fields are both missing **or empty**, because it tests truthiness, not presence. So a body `{title: ""}` gets 400.
- The create and update handlers never leave a note with an empty title and an empty content. Whatever field makes the body pass the check is forwarded and stored. `UpdateNote`, `CreateNote` and `DeleteNote` are proved to preserve "every note has a title or content" (`AllHaveText`) and "every stored id passes the identifier check" (`AllValidIds`). With the second, fetching any stored note by its own id is proved to answer 200 (`FetchStored`).
- The list operation copies the array but not the note objects inside it (see Left out).

## Model

| member | source | states |
|---|---|---|
| NoteModel.OrEmpty | contracts/models/Note.js:17-18 | the JavaScript `or ''` default is empty exactly when the field is missing or empty; otherwise it is the field's string |
| NoteModel.IndexOf | contracts/models/Note.js:39 | `findIndex` gives -1 exactly when no note has the id; otherwise the note at that index has the id and no earlier note does |
| NoteModel.Lookup | contracts/models/Note.js:33-35 | `find` is absent exactly when no note has the id; otherwise it gives the note at the first position holding the id (no earlier note has it) |
| NoteModel.Merge | contracts/models/Note.js:45-51 | the merged note has the given id, the stored `createdAt` and `updatedAt = now`; title and content come from the update where present and from the stored note where absent |
| NoteModel.RemoveAt | contracts/models/Note.js:66 | `splice(i, 1)` leaves one entry fewer; entries before `i` stay in place and entries after it move down by one |
| NoteModel.FirstHolder | contracts/models/Note.js:39 | any index that holds the id, with no earlier holder, is the index `findIndex` returns |
| NoteModel.IndexOfUnique | contracts/models/Note.js:59 | when ids are distinct, the index found for a note's id is that note's own position |
| NoteModel.AppendFresh | contracts/models/Note.js:14-25 | appending a note with a fresh id keeps ids distinct; finding its id then gives that note; lookups of every other id are unchanged |
| NoteModel.ReplaceFound | contracts/models/Note.js:45-54 | replacing the matched entry with a same-id note keeps ids distinct; finding the id gives the new note; lookups of every other id are unchanged |
| NoteModel.RemoveFound | contracts/models/Note.js:58-68 | splicing out the entry of an id from a store with distinct ids: ids stay distinct; the removed id is no longer present; every other id is present exactly as before |
| NoteModel.NoteStore.constructor | contracts/models/Note.js:9-11 | a new store is empty and valid |
| NoteModel.NoteStore.Create | contracts/models/Note.js:14-25 | appends exactly one note at the end; title and content are the given values or `''` when falsy; the given id; `createdAt == updatedAt == now`; every earlier entry is unchanged; the new note is found under its id |
| NoteModel.NoteStore.FindAll | contracts/models/Note.js:28-30 | returns the stored sequence in order; its length is the count |
| NoteModel.NoteStore.FindIndex | contracts/models/Note.js:39 | the linear scan returns `IndexOf(notes, id)`: the first matching index, or -1 exactly when no note has the id |
| NoteModel.NoteStore.FindById | contracts/models/Note.js:33-35 | absent exactly when no note has the id; otherwise the note at the first matching index |
| NoteModel.NoteStore.UpdateById | contracts/models/Note.js:38-55 | unknown id: returns absent and changes nothing; known id: replaces only the first matching entry; keeps `id` and `createdAt`; takes title/content from the update only where present; `updatedAt = now`; length and all other entries unchanged |
| NoteModel.NoteStore.DeleteById | contracts/models/Note.js:58-68 | unknown id: absent, no change; known id: returns the first matching note; the store becomes the old one without that entry (others in order, length minus one); the id is no longer present |
| NoteModel.NoteStore.Count | contracts/models/Note.js:71-73 | the number of stored notes |
| NoteModel.NoteStore.Clear | contracts/models/Note.js:76-78 | the store is empty (and valid) afterwards |
| NoteController.ValidId | contracts/controllers/noteController.js:60 | an id that passes the check has 36 characters with dashes at positions 8, 13, 18 and 23 |
| NoteController.MissesBoth | contracts/controllers/noteController.js:15 | `!title && !content` holds exactly when both fields default to `''` under the create's `or ''`, i.e. exactly when a create would store a blank note |
| NoteController.StoredIdResolves | contracts/controllers/noteController.js:64 | in a store with distinct, well-formed ids, every note's id passes the check and `find` on it returns that very note |
| NoteController.HasTitle | contracts/controllers/noteController.js:155 | the callback `note => note.title` holds exactly when the title is truthy |
| NoteController.HasContent | contracts/controllers/noteController.js:156 | the callback `note => note.content` holds exactly when the content is truthy |
| NoteController.IsBlank | contracts/controllers/noteController.js:157 | the callback `note => !note.title && !note.content` holds exactly when the note has neither title nor content |
| NoteController.Filter | contracts/controllers/noteController.js:155-157 | `filter` keeps exactly the values that satisfy the predicate and is never longer than its input |
| NoteController.FilterMultiplicity | contracts/controllers/noteController.js:155-157 | each note occurs in the filtered sequence as often as in the input when it qualifies, and not at all otherwise |
| NoteController.FilterSnoc | contracts/controllers/noteController.js:155-157 | filtering a sequence extended at the end extends the result with that note exactly when it qualifies |
| NoteController.PositionsSnoc | contracts/controllers/noteController.js:155-157 | extending a sequence at the end adds its last position to the qualifying positions exactly when that note qualifies |
| NoteController.FilterCount | contracts/controllers/noteController.js:155-157 | `filter(p).length` equals the number of positions whose note satisfies `p` |
| NoteController.FilterEmpty | contracts/controllers/noteController.js:155-157 | a filter is empty exactly when no note satisfies its predicate |
| NoteController.BlankPartition | contracts/controllers/noteController.js:157 | the blank notes plus the notes with a title or content make up the whole snapshot |
| NoteController.Tally | contracts/controllers/noteController.js:150-159 | `totalNotes` is the snapshot length; `notesWithTitle`, `notesWithContent` and `emptyNotes` are the numbers of positions holding a note with a title, with content, and with neither; `notesWithTitle` and `notesWithContent` are at most `totalNotes`; `emptyNotes` plus the notes with text equals `totalNotes`; each count is zero exactly when no note qualifies |
| NoteController.CreateNote | contracts/controllers/noteController.js:11-33 | both fields falsy: 400 and store unchanged; otherwise 201 with the note appended (title and content or `''` when falsy, fresh id, equal time stamps); the new note has text; "every note has text" and "every id is well-formed" are preserved |
| NoteController.GetAllNotes | contracts/controllers/noteController.js:39-50 | always 200 with the stored notes, and `count` equals the length of the data |
| NoteController.GetNoteById | contracts/controllers/noteController.js:56-77 | malformed id: 400 whatever the store holds; unknown id: 404; otherwise 200 with the first note holding the id |
| NoteController.UpdateNote | contracts/controllers/noteController.js:83-116 | checks in order: bad id 400; unknown id 404, even with an empty body; both fields falsy 400; no mutation on any of these; otherwise 200 with the replaced note (only fields present in the body overwrite); "every note has text" and "every id is well-formed" are preserved |
| NoteController.DeleteNote | contracts/controllers/noteController.js:122-143 | bad id: 400; unknown id: 404 with no mutation; otherwise 200 with the removed note, which is then no longer findable; "every note has text" and "every id is well-formed" are preserved |
| NoteController.FetchStored | contracts/controllers/noteController.js:56-77 | when every stored id is well-formed, fetching a stored note by its own id answers 200 with that note, never 400 or 404 |
| NoteController.GetNotesStats | contracts/controllers/noteController.js:149-168 | always 200, with the statistics of the current snapshot (`Tally`) |
| NoteController.CreateThenFetch | contracts/controllers/noteController.js:11-77 | create `{title: "A"}` gives 201; fetching the new id gives 200 with that note; a malformed id gives 400; a well-formed unknown id gives 404 |
| NoteController.TallyOfTwo | contracts/controllers/noteController.js:150-157 | a snapshot of one note with only a title and one with only content has statistics 2 total, 1 with title, 1 with content, 0 empty |
| NoteController.EmptyThenStats | contracts/controllers/noteController.js:149-159 | an empty create gives 400 and the count stays 0; after creating one note with a title and one with content, the statistics are 2 total, 1 with title, 1 with content, 0 empty |

## Left out

- `ValidId` checks only the 8-4-4-4-12 hexadecimal shape. The `validate` function of the uuid library is not part of this model. Any further checks it makes, such as on the version and variant digits or on the nil UUID, are not modelled.
- `uuidv4()` is not modelled. Its result is a parameter that is assumed to be well-formed and not held by any stored note. Collisions and randomness are outside the model.
- `new Date().toISOString()` is a caller-supplied time stamp. Clock monotonicity is not modelled, and the `createdAt` field of the statistics object is dropped.
- NoteModel.NoteStore.Create: the source reads the clock twice, once for `createdAt` and once for `updatedAt`. The model uses one reading, so `createdAt == updatedAt` holds in the model, but the two can differ by a clock tick in the source.
- Request body fields are either absent or strings. JSON `null`, numbers, booleans and objects in `title` or `content` are not modelled. For example, an update with `{title: null, content: "x"}` would store `null` as the title in the source.
- Update data has the fixed shape `{title?, content?}`. The handler never forwards any other key, so the open-ended object spread of the source is not modelled beyond these two fields.
- Aliasing: the source returns references to the stored note objects. This applies to `create`, `findById`, `updateById`, and to the elements of the array that `findAll` copies. A caller that mutates such an object mutates the store. The model works on values, so this sharing is not captured.
- The response envelope (`success`, `message` on success), JSON shaping, logging (`contracts/utils/logger.js`, `contracts/middlewares/helpers/requestLogger.js`), the `asyncErrorHandler`/`ErrorHandler` wrappers, Express wiring (`contracts/app.js`) and the route table (`contracts/routes/noteRoute.js`) are not part of this model. Only status codes, error messages and payloads are modelled.
- `src/components/layout/Navbar.jsx` (UI rendering) is not part of this model.
- Concurrency is not modelled. Each handler runs to completion, so none exists.
