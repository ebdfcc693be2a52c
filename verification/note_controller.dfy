/**
 * The request handlers of the notes API, reduced to their decisions: each takes the
 * store and the request's inputs and yields a status code with a payload, changing
 * the store only on the success path.
 */
module NoteController {
  import opened NoteModel

  // ---------------------------------------------------------------------------
  // Responses
  // ---------------------------------------------------------------------------

  datatype Stats = Stats(totalNotes: nat, notesWithTitle: nat, notesWithContent: nat, emptyNotes: nat)

  /** What a response carries: an error message, one note, the note list with its count, or statistics. */
  datatype Payload =
    | Message(text: string)
    | One(note: Note)
    | All(count: nat, notes: seq<Note>)
    | Statistics(stats: Stats)

  datatype Response = Response(status: int, payload: Payload)

  const BothMissing: string := "Note must have either title or content"

  function InvalidIdMessage(id: string): string {
    "Invalid UUID format: " + id
  }

  function NotFoundMessage(id: string): string {
    "Note not found with id: " + id
  }

  // ---------------------------------------------------------------------------
  // Validation
  // ---------------------------------------------------------------------------

  predicate IsHexDigit(c: char) {
    '0' <= c <= '9' || 'a' <= c <= 'f' || 'A' <= c <= 'F'
  }

  /** Positions of the four dashes in the 8-4-4-4-12 layout. */
  predicate IsDashPosition(i: int) {
    i == 8 || i == 13 || i == 18 || i == 23
  }

  /** The identifier format checked before any lookup: 36 characters, hex digits in 8-4-4-4-12 groups. */
  predicate ValidId(s: string)
    ensures ValidId(s) ==> |s| == 36 && s[8] == '-' && s[13] == '-' && s[18] == '-' && s[23] == '-'
  {
    |s| == 36 && forall i :: 0 <= i < |s| ==> if IsDashPosition(i) then s[i] == '-' else IsHexDigit(s[i])
  }

  /** `!title && !content`: neither field is a non-empty string. */
  predicate MissesBoth(body: NoteFields)
    ensures MissesBoth(body) <==> OrEmpty(body.title) == "" && OrEmpty(body.content) == ""
  {
    !Truthy(body.title) && !Truthy(body.content)
  }

  /** Every stored id passes the identifier check: true of ids that come from `uuidv4()`. */
  predicate AllValidIds(s: seq<Note>) {
    forall i :: 0 <= i < |s| ==> ValidId(s[i].id)
  }

  /**
   * In a store whose ids are distinct and well-formed, each note's id passes the check
   * and leads back to that very note.
   */
  lemma StoredIdResolves(s: seq<Note>, k: nat)
    requires UniqueIds(s) && AllValidIds(s) && k < |s|
    ensures ValidId(s[k].id) && HasId(s, s[k].id)
    ensures Lookup(s, s[k].id) == Some(s[k])
  {
    IndexOfUnique(s, k);
  }

  // ---------------------------------------------------------------------------
  // Statistics
  // ---------------------------------------------------------------------------

  /** `note => note.title`: the title is truthy. */
  predicate HasTitle(n: Note)
    ensures HasTitle(n) <==> Truthy(Some(n.title))
  {
    n.title != ""
  }

  /** `note => note.content`: the content is truthy. */
  predicate HasContent(n: Note)
    ensures HasContent(n) <==> Truthy(Some(n.content))
  {
    n.content != ""
  }

  /** `note => !note.title && !note.content`. */
  predicate IsBlank(n: Note)
    ensures IsBlank(n) <==> !HasText(n)
  {
    !HasTitle(n) && !HasContent(n)
  }

  /** A note with a title or content: the complement of `IsBlank`. */
  predicate HasText(n: Note) {
    HasTitle(n) || HasContent(n)
  }

  /** Every note has a title or content: what the create and update checks maintain. */
  predicate AllHaveText(s: seq<Note>) {
    forall i :: 0 <= i < |s| ==> HasText(s[i])
  }

  /** `s.filter(keep)`: the notes of `s` that satisfy `keep`, in order. */
  function Filter(s: seq<Note>, keep: Note -> bool): (r: seq<Note>)
    ensures |r| <= |s|
    ensures forall n :: n in r <==> n in s && keep(n)
  {
    if |s| == 0 then []
    else (if keep(s[0]) then [s[0]] else []) + Filter(s[1..], keep)
  }

  /** Each note occurs in a filter's result as often as in its input when it qualifies, and not at all otherwise. */
  lemma {:induction false} FilterMultiplicity(s: seq<Note>, keep: Note -> bool)
    ensures forall n :: multiset(Filter(s, keep))[n] == if keep(n) then multiset(s)[n] else 0
  {
    if |s| > 0 {
      assert s == [s[0]] + s[1..];
      FilterMultiplicity(s[1..], keep);
    }
  }

  /** Filtering a sequence extended at the end extends the filtered sequence the same way. */
  lemma {:induction false} FilterSnoc(s: seq<Note>, x: Note, keep: Note -> bool)
    ensures Filter(s + [x], keep) == Filter(s, keep) + (if keep(x) then [x] else [])
  {
    if |s| == 0 {
      assert s + [x] == [x];
      assert [x][1..] == [];
    } else {
      assert (s + [x])[1..] == s[1..] + [x];
      FilterSnoc(s[1..], x, keep);
    }
  }

  /** The positions of `s` whose note satisfies `keep`. */
  function Positions(s: seq<Note>, keep: Note -> bool): set<int> {
    set i | 0 <= i < |s| && keep(s[i])
  }

  /** Extending a sequence at the end adds its last position when that note qualifies. */
  lemma PositionsSnoc(t: seq<Note>, x: Note, keep: Note -> bool)
    ensures Positions(t + [x], keep) == Positions(t, keep) + (if keep(x) then {|t|} else {})
  {
    var s := t + [x];
    assert forall i :: 0 <= i < |t| ==> s[i] == t[i];
    assert s[|t|] == x;
  }

  /** `filter(keep).length` is the number of positions whose note satisfies `keep`. */
  lemma {:induction false} FilterCount(s: seq<Note>, keep: Note -> bool)
    ensures |Filter(s, keep)| == |Positions(s, keep)|
  {
    if |s| == 0 {
      assert Positions(s, keep) == {};
    } else {
      var t, x := s[..|s| - 1], s[|s| - 1];
      assert s == t + [x];
      FilterSnoc(t, x, keep);
      FilterCount(t, keep);
      PositionsSnoc(t, x, keep);
      assert |t| !in Positions(t, keep);
    }
  }

  /** A filter comes back empty exactly when no note satisfies its predicate. */
  lemma FilterEmpty(s: seq<Note>, keep: Note -> bool)
    ensures |Filter(s, keep)| == 0 <==> forall i :: 0 <= i < |s| ==> !keep(s[i])
  {
    var r := Filter(s, keep);
    if |r| != 0 {
      assert r[0] in r;
    }
    forall i | 0 <= i < |s| && |r| == 0
      ensures !keep(s[i])
    {
      assert s[i] in s;
    }
  }

  /** Every note is either blank or has text, never both, so the two counts add up to the total. */
  lemma {:induction false} BlankPartition(s: seq<Note>)
    ensures |Filter(s, IsBlank)| + |Filter(s, HasText)| == |s|
  {
    if |s| > 0 {
      BlankPartition(s[1..]);
    }
  }

  /** The statistics of one snapshot, each count the length of a `filter` over it. */
  function Tally(snapshot: seq<Note>): (st: Stats)
    ensures st.totalNotes == |snapshot|
    ensures st.notesWithTitle == |Positions(snapshot, HasTitle)|
    ensures st.notesWithContent == |Positions(snapshot, HasContent)|
    ensures st.emptyNotes == |Positions(snapshot, IsBlank)|
    ensures st.notesWithTitle <= st.totalNotes && st.notesWithContent <= st.totalNotes
    ensures st.emptyNotes + |Filter(snapshot, HasText)| == st.totalNotes
    ensures st.emptyNotes == 0 <==> forall i :: 0 <= i < |snapshot| ==> HasText(snapshot[i])
    ensures st.notesWithTitle == 0 <==> forall i :: 0 <= i < |snapshot| ==> !HasTitle(snapshot[i])
    ensures st.notesWithContent == 0 <==> forall i :: 0 <= i < |snapshot| ==> !HasContent(snapshot[i])
  {
    BlankPartition(snapshot);
    FilterEmpty(snapshot, IsBlank);
    FilterEmpty(snapshot, HasTitle);
    FilterEmpty(snapshot, HasContent);
    FilterCount(snapshot, HasTitle);
    FilterCount(snapshot, HasContent);
    FilterCount(snapshot, IsBlank);
    Stats(|snapshot|,
          |Filter(snapshot, HasTitle)|,
          |Filter(snapshot, HasContent)|,
          |Filter(snapshot, IsBlank)|)
  }

  // ---------------------------------------------------------------------------
  // Handlers
  // ---------------------------------------------------------------------------

  /**
   * POST /notes. `newId` and `now` stand for `uuidv4()` and the clock: a well-formed
   * id that no stored note has.
   */
  method CreateNote(store: NoteStore, body: NoteFields, newId: string, now: Timestamp) returns (resp: Response)
    requires store.Valid() && ValidId(newId) && !HasId(store.notes, newId)
    modifies store
    ensures store.Valid()
    ensures MissesBoth(body) ==> resp == Response(400, Message(BothMissing)) && store.notes == old(store.notes)
    ensures !MissesBoth(body) ==>
      && resp.status == 201 && resp.payload.One?
      && resp.payload.note.id == newId
      && resp.payload.note.title == OrEmpty(body.title)
      && resp.payload.note.content == OrEmpty(body.content)
      && resp.payload.note.createdAt == now && resp.payload.note.updatedAt == now
      && HasText(resp.payload.note)
      && store.notes == old(store.notes) + [resp.payload.note]
    ensures AllHaveText(old(store.notes)) ==> AllHaveText(store.notes)
    ensures AllValidIds(old(store.notes)) ==> AllValidIds(store.notes)
  {
    if MissesBoth(body) {
      return Response(400, Message(BothMissing));
    }
    var data := NoteFields(Some(OrEmpty(body.title)), Some(OrEmpty(body.content)));
    var note := store.Create(data, newId, now);
    resp := Response(201, One(note));
  }

  /** GET /notes: every note, with a count equal to the length of the list. Never fails. */
  method GetAllNotes(store: NoteStore) returns (resp: Response)
    ensures resp.status == 200 && resp.payload.All?
    ensures resp.payload.notes == store.notes
    ensures resp.payload.count == |resp.payload.notes|
  {
    var notes := store.FindAll();
    resp := Response(200, All(|notes|, notes));
  }

  /** GET /notes/:id. The id's format is checked before the store is consulted. */
  method GetNoteById(store: NoteStore, id: string) returns (resp: Response)
    ensures !ValidId(id) ==> resp == Response(400, Message(InvalidIdMessage(id)))
    ensures ValidId(id) && !HasId(store.notes, id) ==> resp == Response(404, Message(NotFoundMessage(id)))
    ensures ValidId(id) && HasId(store.notes, id) ==>
      resp == Response(200, One(store.notes[IndexOf(store.notes, id)]))
    ensures resp.status == 200 ==> resp.payload.One? && resp.payload.note.id == id
  {
    if !ValidId(id) {
      return Response(400, Message(InvalidIdMessage(id)));
    }
    var note := store.FindById(id);
    if note.None? {
      return Response(404, Message(NotFoundMessage(id)));
    }
    resp := Response(200, One(note.value));
  }

  /**
   * PUT /notes/:id. Checks, in order: the id's format (400), the note's existence (404,
   * whatever the body), the body (400 when both fields are missing or empty). Only then
   * is the store changed; fields absent from the body are not forwarded.
   */
  method UpdateNote(store: NoteStore, id: string, body: NoteFields, now: Timestamp) returns (resp: Response)
    requires store.Valid()
    modifies store
    ensures store.Valid()
    ensures !ValidId(id) ==> resp == Response(400, Message(InvalidIdMessage(id)))
    ensures ValidId(id) && !HasId(old(store.notes), id) ==> resp == Response(404, Message(NotFoundMessage(id)))
    ensures ValidId(id) && HasId(old(store.notes), id) && MissesBoth(body) ==>
      resp == Response(400, Message(BothMissing))
    ensures resp.status == 200 <==> ValidId(id) && HasId(old(store.notes), id) && !MissesBoth(body)
    ensures resp.status != 200 ==> store.notes == old(store.notes)
    ensures resp.status == 200 ==>
      var i := IndexOf(old(store.notes), id);
      var was := old(store.notes)[i];
      && resp.payload.One?
      && resp.payload.note.id == was.id
      && resp.payload.note.createdAt == was.createdAt
      && resp.payload.note.updatedAt == now
      && resp.payload.note.title == (if body.title.Some? then body.title.value else was.title)
      && resp.payload.note.content == (if body.content.Some? then body.content.value else was.content)
      && HasText(resp.payload.note)
      && store.notes == old(store.notes)[i := resp.payload.note]
    ensures AllHaveText(old(store.notes)) ==> AllHaveText(store.notes)
    ensures AllValidIds(old(store.notes)) ==> AllValidIds(store.notes)
  {
    if !ValidId(id) {
      return Response(400, Message(InvalidIdMessage(id)));
    }
    var existing := store.FindById(id);
    if existing.None? {
      return Response(404, Message(NotFoundMessage(id)));
    }
    if MissesBoth(body) {
      return Response(400, Message(BothMissing));
    }
    // Only keys that are not `undefined` go into the update data; `None` stays absent.
    var patch := NoteFields(body.title, body.content);
    var updated := store.UpdateById(id, patch, now);
    resp := Response(200, One(updated.value));
  }

  /** DELETE /notes/:id. A well-formed id that matches nothing is a 404 with no change. */
  method DeleteNote(store: NoteStore, id: string) returns (resp: Response)
    requires store.Valid()
    modifies store
    ensures store.Valid()
    ensures !ValidId(id) ==> resp == Response(400, Message(InvalidIdMessage(id)))
    ensures ValidId(id) && !HasId(old(store.notes), id) ==> resp == Response(404, Message(NotFoundMessage(id)))
    ensures resp.status != 200 ==> store.notes == old(store.notes)
    ensures resp.status == 200 <==> ValidId(id) && HasId(old(store.notes), id)
    ensures resp.status == 200 ==>
      var i := IndexOf(old(store.notes), id);
      && resp == Response(200, One(old(store.notes)[i]))
      && store.notes == RemoveAt(old(store.notes), i)
      && !HasId(store.notes, id)
    ensures AllHaveText(old(store.notes)) ==> AllHaveText(store.notes)
    ensures AllValidIds(old(store.notes)) ==> AllValidIds(store.notes)
  {
    if !ValidId(id) {
      return Response(400, Message(InvalidIdMessage(id)));
    }
    var deleted := store.DeleteById(id);
    if deleted.None? {
      return Response(404, Message(NotFoundMessage(id)));
    }
    resp := Response(200, One(deleted.value));
  }

  /** GET /notes/stats: counts over one snapshot of the store. Never fails. */
  method GetNotesStats(store: NoteStore) returns (resp: Response)
    ensures resp == Response(200, Statistics(Tally(store.notes)))
  {
    var totalNotes := store.Count();
    var notes := store.FindAll();
    var stats := Stats(totalNotes,
                       |Filter(notes, HasTitle)|,
                       |Filter(notes, HasContent)|,
                       |Filter(notes, IsBlank)|);
    resp := Response(200, Statistics(stats));
  }

  /**
   * Fetching any stored note by its own id answers 200 with that note, never 400 or 404,
   * when every stored id came from `uuidv4()` (which `CreateNote` keeps true).
   */
  method FetchStored(store: NoteStore, k: nat) returns (resp: Response)
    requires store.Valid() && AllValidIds(store.notes) && k < |store.notes|
    ensures resp == Response(200, One(store.notes[k]))
  {
    StoredIdResolves(store.notes, k);
    IndexOfUnique(store.notes, k);
    resp := GetNoteById(store, store.notes[k].id);
  }

  // ---------------------------------------------------------------------------
  // Scenarios
  // ---------------------------------------------------------------------------

  /**
   * A note created with a title is found under its new id; a malformed id is a 400
   * and a well-formed id that nothing holds is a 404.
   */
  method CreateThenFetch(id: string, unknown: string, bogus: string, now: Timestamp)
    returns (created: Response, fetched: Response, rejected: Response, missing: Response)
    requires ValidId(id) && ValidId(unknown) && id != unknown && !ValidId(bogus)
    ensures created.status == 201 && created.payload.One? && created.payload.note.id == id
    ensures fetched == Response(200, One(created.payload.note)) && fetched.payload.note.title == "A"
    ensures rejected.status == 400
    ensures missing.status == 404
  {
    var store := new NoteStore();
    created := CreateNote(store, NoteFields(Some("A"), Some("")), id, now);
    assert store.notes == [created.payload.note];
    FirstHolder(store.notes, id, 0);
    fetched := GetNoteById(store, id);
    rejected := GetNoteById(store, bogus);
    missing := GetNoteById(store, unknown);
  }

  /** The statistics of a note with only a title followed by a note with only content. */
  lemma TallyOfTwo(notes: seq<Note>)
    requires |notes| == 2
    requires HasTitle(notes[0]) && !HasContent(notes[0]) && !HasTitle(notes[1]) && HasContent(notes[1])
    ensures Tally(notes) == Stats(2, 1, 1, 0)
  {
    assert notes[1..][1..] == [];
    assert Filter(notes, HasTitle) == [notes[0]];
    assert Filter(notes, HasContent) == [notes[1]];
    assert Filter(notes, IsBlank) == [];
  }

  /**
   * An empty create is refused and stores nothing; after two good creates the
   * statistics count two notes, one with a title, one with content, none blank.
   */
  method EmptyThenStats(id1: string, id2: string, now: Timestamp)
    returns (refused: Response, total: nat, stats: Response)
    requires ValidId(id1) && ValidId(id2) && id1 != id2
    ensures refused == Response(400, Message(BothMissing)) && total == 0
    ensures stats == Response(200, Statistics(Stats(2, 1, 1, 0)))
  {
    var store := new NoteStore();
    refused := CreateNote(store, NoteFields(Some(""), None), id1, now);
    total := store.Count();
    var _ := CreateNote(store, NoteFields(Some("A"), None), id1, now);
    var _ := CreateNote(store, NoteFields(None, Some("B")), id2, now);
    var notes := store.notes;
    assert |notes| == 2 && HasTitle(notes[0]) && !HasContent(notes[0]) && !HasTitle(notes[1]) && HasContent(notes[1]);
    TallyOfTwo(notes);
    stats := GetNotesStats(store);
  }
}
