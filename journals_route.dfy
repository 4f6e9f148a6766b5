/** The `/journals` handlers (routes/journals.js): the same five handlers
    as `/notes`, over the same collection, with `isJournal: true` added to
    every filter and forced on every created record. */
module JournalsRoute {
  import opened Records
  import opened NoteSchema
  import opened DocumentStore
  import NotesRoute

  /** Whether a note is one of the caller's journal entries. */
  predicate IsJournalOf(n: Note, caller: UserId) {
    n.userId == caller && n.isJournal == Some(true)
  }

  /** GET /journals: exactly the caller's notes whose `isJournal` is true. */
  function List(db: Store, caller: UserId): (r: seq<Note>)
    reads db
    ensures forall n :: n in r <==> n in db.notes && IsJournalOf(n, caller)
  {
    SelectNotes(db.notes, caller, true)
  }

  /** GET /journals/:id: a plain note, even an owned one, is not found. */
  function Get(db: Store, caller: UserId, id: Id): (r: Response<Note>)
    reads db
    ensures r.Ok? || r.NotFound?
    ensures r.Ok? <==> exists n :: n in db.notes && n.id == id && IsJournalOf(n, caller)
    ensures r.Ok? ==> r.value in db.notes && r.value.id == id && IsJournalOf(r.value, caller)
  {
    var k := FindNote(db.notes, id, caller, true);
    if k < 0 then NotFound else Ok(db.notes[k])
  }

  /** The note POST /journals would save under id `id`: always a journal
      of the caller, whatever the body says; `isPinned` is the body's only
      when it is a boolean, else false; a falsy date becomes `now` here in
      the handler. */
  function Build(id: Id, caller: UserId, body: NoteBody, normalize: string -> Option<string>, now: string): (r: Response<Note>)
    ensures !r.NotFound?
    ensures r.Rejected? <==> caller == "" || (Truthy(body.date) && normalize(body.date.value).None?)
    ensures Truthy(body.date) && normalize(body.date.value).None? ==> r == Rejected(InvalidDate)
    ensures r.Ok? ==> r.value.id == id && IsJournalOf(r.value, caller)
    ensures r.Ok? ==> r.value.title == body.title && r.value.content == body.content
    ensures r.Ok? ==> r.value.isPinned == Some(body.isPinned.GetOr(false))
    ensures r.Ok? ==> r.value.tagIds == body.tagIds.GetOr([])
    ensures r.Ok? && Truthy(body.date) ==> Some(r.value.date) == normalize(body.date.value)
    ensures r.Ok? && !Truthy(body.date) ==> r.value.date == now
  {
    if Truthy(body.date) && normalize(body.date.value).None? then
      Rejected(InvalidDate)
    else
      var date := if Truthy(body.date) then normalize(body.date.value) else Some(now);
      Instantiate(id, NoteInput(body.title, body.content, body.tagIds, date,
                                Some(body.isPinned.GetOr(false)), Some(true), caller), now)
  }

  /** The two create paths default a missing date in different places (the
      journal handler, the note schema), but store the same date, and they
      agree on everything except the two flags. */
  lemma CreatePathsAgree(id: Id, caller: UserId, body: NoteBody, normalize: string -> Option<string>, now: string)
    ensures var j := Build(id, caller, body, normalize, now);
            var n := NotesRoute.Build(id, caller, body, normalize, now);
            j.Ok? <==> n.Ok?
    ensures var j := Build(id, caller, body, normalize, now);
            var n := NotesRoute.Build(id, caller, body, normalize, now);
            j.Ok? ==> j.value == n.value.(isPinned := j.value.isPinned, isJournal := Some(true))
  {
  }

  /** POST /journals. */
  method Create(db: Store, caller: UserId, body: NoteBody, normalize: string -> Option<string>, now: string)
    returns (r: Response<Note>)
    requires db.Valid()
    modifies db
    ensures db.Valid() && db.tags == old(db.tags)
    ensures r == Build(old(db.nextId), caller, body, normalize, now)
    ensures r.Ok? ==> db.notes == old(db.notes) + [r.value]
    ensures r.Ok? ==> forall n :: n in old(db.notes) ==> n.id != r.value.id
    ensures r.Ok? ==> Get(db, caller, r.value.id) == r && r.value in List(db, caller)
    ensures !r.Ok? ==> db.notes == old(db.notes)
    ensures OtherNotesUnchanged(old(db.notes), db.notes, caller)
  {
    r := Build(db.nextId, caller, body, normalize, now);
    if r.Ok? {
      db.InsertNote(r.value);
    }
  }

  /** The update document of PUT /journals/:id: `isJournal` is not among
      its paths. */
  function PatchOf(body: NoteBody): (p: NotePatch)
    ensures p.isJournal.None?
    ensures p == NotesRoute.PatchOf(body).(isJournal := None)
  {
    NotePatch(body.title, body.content, body.tagIds, body.date, body.isPinned, None)
  }

  /** PUT /journals/:id: only a journal of the caller is rewritten, and it
      stays a journal of the caller; a plain note is not found and is left
      unchanged. */
  method Update(db: Store, caller: UserId, id: Id, body: NoteBody) returns (r: Response<Note>)
    requires db.Valid()
    modifies db
    ensures db.Valid() && db.tags == old(db.tags) && db.nextId == old(db.nextId)
    ensures old(Get(db, caller, id)).NotFound? ==> r == NotFound && db.notes == old(db.notes)
    ensures old(Get(db, caller, id)).Ok? ==> r == Ok(Apply(old(Get(db, caller, id)).value, PatchOf(body)))
    ensures (exists n :: n in old(db.notes) && n.id == id && !IsJournalOf(n, caller)) ==> r == NotFound
    ensures r.Ok? ==> IsJournalOf(r.value, caller) && r.value in List(db, caller)
    ensures r.Ok? ==> db.notes == old(db.notes)[FindNote(old(db.notes), id, caller, true) := r.value]
    ensures r.Ok? ==> Get(db, caller, id) == r
    ensures OtherNotesUnchanged(old(db.notes), db.notes, caller)
  {
    var k := FindNote(db.notes, id, caller, true);
    if k < 0 {
      return NotFound;
    }
    var n := Apply(db.notes[k], PatchOf(body));
    FindNoteAfterReplace(db.notes, k, n, caller, true);
    ghost var before := db.notes;
    db.ReplaceNote(k, n);
    r := Ok(n);
    forall m | m in before && m.id == id ensures IsJournalOf(m, caller) {
      var i :| 0 <= i < |before| && before[i] == m;
      assert i == k;
    }
  }

  /** DELETE /journals/:id: removes only a journal of the caller; every
      other note is kept as it was. */
  method Delete(db: Store, caller: UserId, id: Id) returns (deleted: bool)
    requires db.Valid()
    modifies db
    ensures db.Valid() && db.tags == old(db.tags) && db.nextId == old(db.nextId)
    ensures deleted <==> old(Get(db, caller, id)).Ok?
    ensures !deleted ==> db.notes == old(db.notes)
    ensures (exists n :: n in old(db.notes) && n.id == id && !IsJournalOf(n, caller)) ==> !deleted
    ensures deleted ==> forall n :: n in old(db.notes) && n.id != id ==> n in db.notes
    ensures forall n :: n in db.notes ==> n in old(db.notes)
    ensures Get(db, caller, id) == NotFound
    ensures OtherNotesUnchanged(old(db.notes), db.notes, caller)
  {
    var k := FindNote(db.notes, id, caller, true);
    if k < 0 {
      return false;
    }
    forall m | m in db.notes && m.id == id ensures IsJournalOf(m, caller) {
      var i :| 0 <= i < |db.notes| && db.notes[i] == m;
      assert i == k;
    }
    db.RemoveNote(k);
    deleted := true;
  }
}
