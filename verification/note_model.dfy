/** The in-memory note store: its records, the scans it runs over them, and the store object. */
module NoteModel {

  datatype Option<T> = None | Some(value: T)

  /** An ISO-8601 time stamp; the clock is outside the model, so callers supply it. */
  type Timestamp = string

  /** One field of a request body or of update data: `None` when the key is absent (`undefined`). */
  type Field = Option<string>

  datatype Note = Note(id: string, title: string, content: string, createdAt: Timestamp, updatedAt: Timestamp)

  /** The `{ title?, content? }` object that `create` and `updateById` receive. */
  datatype NoteFields = NoteFields(title: Field, content: Field)

  /** JavaScript truthiness of a string-or-undefined value: present and not the empty string. */
  predicate Truthy(f: Field) {
    f.Some? && f.value != ""
  }

  /** The value of `f || ''`. */
  function OrEmpty(f: Field): (s: string)
    ensures s == "" <==> !Truthy(f)
    ensures Truthy(f) ==> s == f.value
  {
    if Truthy(f) then f.value else ""
  }

  predicate HasId(s: seq<Note>, id: string) {
    exists i :: 0 <= i < |s| && s[i].id == id
  }

  /** The store's invariant: no two stored notes share an id. */
  predicate UniqueIds(s: seq<Note>) {
    forall i, j :: 0 <= i < j < |s| ==> s[i].id != s[j].id
  }

  /** `findIndex(note => note.id === id)`: the first index holding `id`, or -1. */
  function IndexOf(s: seq<Note>, id: string): (r: int)
    ensures -1 <= r < |s|
    ensures r == -1 <==> !HasId(s, id)
    ensures 0 <= r ==> s[r].id == id && forall j :: 0 <= j < r ==> s[j].id != id
  {
    if |s| == 0 then -1
    else if s[0].id == id then 0
    else
      var k := IndexOf(s[1..], id);
      assert forall j :: 0 < j < |s| ==> s[j] == s[1..][j - 1];
      if k == -1 then -1 else k + 1
  }

  /** `find(note => note.id === id)`: the first note holding `id`, or absent. */
  function Lookup(s: seq<Note>, id: string): (r: Option<Note>)
    ensures r.None? <==> !HasId(s, id)
    ensures r.Some? ==> r.value.id == id && r.value in s
    ensures r.Some? ==> exists k :: 0 <= k < |s| && s[k] == r.value && forall j :: 0 <= j < k ==> s[j].id != id
  {
    var i := IndexOf(s, id);
    if i == -1 then None else Some(s[i])
  }

  /** `{ ...stored, ...patch, id, createdAt: stored.createdAt, updatedAt: now }`. */
  function Merge(stored: Note, id: string, patch: NoteFields, now: Timestamp): (r: Note)
    ensures r.id == id && r.createdAt == stored.createdAt && r.updatedAt == now
    ensures patch.title.Some? ==> r.title == patch.title.value
    ensures patch.title.None? ==> r.title == stored.title
    ensures patch.content.Some? ==> r.content == patch.content.value
    ensures patch.content.None? ==> r.content == stored.content
  {
    Note(id,
         if patch.title.Some? then patch.title.value else stored.title,
         if patch.content.Some? then patch.content.value else stored.content,
         stored.createdAt,
         now)
  }

  /** `splice(i, 1)` on a copy: `s` without its entry at `i`. */
  function RemoveAt(s: seq<Note>, i: nat): (r: seq<Note>)
    requires i < |s|
    ensures |r| == |s| - 1
    ensures forall j :: 0 <= j < |r| ==> r[j] == s[if j < i then j else j + 1]
  {
    s[..i] + s[i + 1..]
  }

  /** Any index that holds `id` and has no earlier holder of `id` is the one `IndexOf` finds. */
  lemma FirstHolder(s: seq<Note>, id: string, k: nat)
    requires k < |s| && s[k].id == id
    requires forall j :: 0 <= j < k ==> s[j].id != id
    ensures IndexOf(s, id) == k
  {
  }

  /** With distinct ids, the index of an id is the position of the note that holds it. */
  lemma IndexOfUnique(s: seq<Note>, k: nat)
    requires UniqueIds(s) && k < |s|
    ensures IndexOf(s, s[k].id) == k
  {
    FirstHolder(s, s[k].id, k);
  }

  /**
   * Appending a note whose id is fresh keeps the ids distinct, makes the new note
   * the one found under its id, and changes what is found under no other id.
   */
  lemma {:induction false} AppendFresh(s: seq<Note>, n: Note)
    requires !HasId(s, n.id)
    ensures UniqueIds(s) ==> UniqueIds(s + [n])
    ensures Lookup(s + [n], n.id) == Some(n)
    ensures forall id :: id != n.id ==> Lookup(s + [n], id) == Lookup(s, id)
  {
    var t := s + [n];
    FirstHolder(t, n.id, |s|);
    forall id | id != n.id
      ensures Lookup(t, id) == Lookup(s, id)
    {
      var i := IndexOf(s, id);
      if i == -1 {
        assert !HasId(t, id);
      } else {
        FirstHolder(t, id, i);
      }
    }
  }

  /**
   * Replacing the entry at the first index of an id by a note with the same id keeps
   * the ids distinct, makes the replacement the one found under that id, and keeps
   * every other id's lookup.
   */
  lemma ReplaceFound(s: seq<Note>, i: nat, m: Note)
    requires UniqueIds(s) && i < |s| && m.id == s[i].id
    ensures UniqueIds(s[i := m])
    ensures Lookup(s[i := m], m.id) == Some(m)
    ensures forall id :: id != m.id ==> Lookup(s[i := m], id) == Lookup(s, id)
  {
    var t := s[i := m];
    IndexOfUnique(t, i);
    forall id | id != m.id
      ensures Lookup(t, id) == Lookup(s, id)
    {
      var k := IndexOf(s, id);
      if k == -1 {
        assert !HasId(t, id);
      } else {
        FirstHolder(t, id, k);
      }
    }
  }

  /**
   * Removing the note at position `i` of a store with distinct ids (its length and
   * order are given by `RemoveAt`): the ids stay distinct, the removed id is no longer
   * found, and every other id is present exactly when it was before.
   */
  lemma RemoveFound(s: seq<Note>, i: nat)
    requires UniqueIds(s) && i < |s|
    ensures UniqueIds(RemoveAt(s, i))
    ensures !HasId(RemoveAt(s, i), s[i].id)
    ensures forall id :: id != s[i].id ==> (HasId(RemoveAt(s, i), id) <==> HasId(s, id))
  {
    var t := RemoveAt(s, i);
    forall id | id != s[i].id && HasId(s, id)
      ensures HasId(t, id)
    {
      var k :| 0 <= k < |s| && s[k].id == id;
      assert t[if k < i then k else k - 1] == s[k];
    }
  }

  /** The store: class `Note` of the source, owning the array `notes`. */
  class NoteStore {
    var notes: seq<Note>

    ghost predicate Valid()
      reads this
    {
      UniqueIds(notes)
    }

    constructor ()
      ensures Valid() && notes == []
    {
      notes := [];
    }

    /**
     * Appends one note built from `data`, the caller-supplied fresh `id` (the model's
     * `uuidv4()`) and the time `now`, used for both time stamps.
     */
    method Create(data: NoteFields, id: string, now: Timestamp) returns (note: Note)
      requires Valid() && !HasId(notes, id)
      modifies this
      ensures Valid()
      ensures note.id == id && note.createdAt == now && note.updatedAt == now
      ensures note.title == OrEmpty(data.title) && note.content == OrEmpty(data.content)
      ensures notes == old(notes) + [note]
      ensures Lookup(notes, id) == Some(note)
    {
      note := Note(id, OrEmpty(data.title), OrEmpty(data.content), now, now);
      AppendFresh(notes, note);
      notes := notes + [note];
    }

    /** A snapshot of every note in insertion order; sequences are values, so it is a copy. */
    method FindAll() returns (all: seq<Note>)
      ensures all == notes
      ensures |all| == |notes|
    {
      all := notes;
    }

    /** The linear scan behind `findIndex`: the first index holding `id`, or -1. */
    method FindIndex(id: string) returns (index: int)
      ensures -1 <= index < |notes|
      ensures index == IndexOf(notes, id)
      ensures index == -1 <==> !HasId(notes, id)
    {
      index := 0;
      while index < |notes|
        invariant 0 <= index <= |notes|
        invariant forall j :: 0 <= j < index ==> notes[j].id != id
      {
        if notes[index].id == id {
          FirstHolder(notes, id, index);
          return;
        }
        index := index + 1;
      }
      index := -1;
    }

    /** `find`: the first note holding `id`, or absent. */
    method FindById(id: string) returns (found: Option<Note>)
      ensures found == Lookup(notes, id)
      ensures found.None? <==> !HasId(notes, id)
      ensures found.Some? ==> found.value.id == id && found.value == notes[IndexOf(notes, id)]
    {
      var index := FindIndex(id);
      found := if index == -1 then None else Some(notes[index]);
    }

    /**
     * Replaces the first note holding `id` by its merge with `patch`: fields present in
     * `patch` overwrite, `id` and `createdAt` are kept, `updatedAt` becomes `now`.
     * An unknown id yields `None` and leaves the store as it was.
     */
    method UpdateById(id: string, patch: NoteFields, now: Timestamp) returns (updated: Option<Note>)
      requires Valid()
      modifies this
      ensures Valid()
      ensures updated.None? <==> !HasId(old(notes), id)
      ensures updated.None? ==> notes == old(notes)
      ensures updated.Some? ==>
        var i := IndexOf(old(notes), id);
        var was := old(notes)[i];
        && updated.value.id == id && updated.value.id == was.id
        && updated.value.createdAt == was.createdAt
        && updated.value.updatedAt == now
        && updated.value.title == (if patch.title.Some? then patch.title.value else was.title)
        && updated.value.content == (if patch.content.Some? then patch.content.value else was.content)
        && notes == old(notes)[i := updated.value]
        && Lookup(notes, id) == updated
    {
      var index := FindIndex(id);
      if index == -1 {
        return None;
      }
      var note := Merge(notes[index], id, patch, now);
      ReplaceFound(notes, index, note);
      notes := notes[index := note];
      updated := Some(note);
    }

    /**
     * Removes and returns the first note holding `id`; the other notes keep their order.
     * An unknown id yields `None` and leaves the store as it was.
     */
    method DeleteById(id: string) returns (deleted: Option<Note>)
      requires Valid()
      modifies this
      ensures Valid()
      ensures deleted.None? <==> !HasId(old(notes), id)
      ensures deleted.None? ==> notes == old(notes)
      ensures deleted.Some? ==>
        var i := IndexOf(old(notes), id);
        && deleted.value == old(notes)[i]
        && notes == old(notes)[..i] + old(notes)[i + 1..]
        && |notes| == |old(notes)| - 1
        && !HasId(notes, id)
    {
      var index := FindIndex(id);
      if index == -1 {
        return None;
      }
      deleted := Some(notes[index]);
      RemoveFound(notes, index);
      notes := RemoveAt(notes, index);
    }

    method Count() returns (n: nat)
      ensures n == |notes|
    {
      n := |notes|;
    }

    method Clear()
      modifies this
      ensures Valid() && notes == []
    {
      notes := [];
    }
  }
}
