/** The `/notes` handlers (routes/notes.js): every query and write is
    filtered by the caller's id; nothing filters on `isJournal`. */
module NotesRoute {
  import opened Records
  import opened NoteSchema
  import opened DocumentStore

  /** GET /notes: exactly the caller's notes, journals included. */
  function List(db: Store, caller: UserId): (r: seq<Note>)
    reads db
    ensures forall n :: n in r <==> n in db.notes && n.userId == caller
  {
    SelectNotes(db.notes, caller, false)
  }

  /** GET /notes/:id: the note only when both its id and its owner match;
      a note of another user answers the same NotFound as a missing one. */
  function Get(db: Store, caller: UserId, id: Id): (r: Response<Note>)
    reads db
    ensures r.Ok? || r.NotFound?
    ensures r.Ok? <==> exists n :: n in db.notes && n.id == id && n.userId == caller
    ensures r.Ok? ==> r.value in db.notes && r.value.id == id && r.value.userId == caller
  {
    var k := FindNote(db.notes, id, caller, false);
    if k < 0 then NotFound else Ok(db.notes[k])
  }

  /** The note POST /notes would save under id `id`. A truthy body date is
      normalised (`normalize` yields None where the conversion throws); a
      falsy one is left undefined, so the schema default `now` applies. The
      owner always comes from the caller: the body has no owner field. */
  function Build(id: Id, caller: UserId, body: NoteBody, normalize: string -> Option<string>, now: string): (r: Response<Note>)
    ensures !r.NotFound?
    ensures r.Rejected? <==> caller == "" || (Truthy(body.date) && normalize(body.date.value).None?)
    ensures Truthy(body.date) && normalize(body.date.value).None? ==> r == Rejected(InvalidDate)
    ensures r.Ok? ==> r.value.id == id && r.value.userId == caller
    ensures r.Ok? ==> r.value.title == body.title && r.value.content == body.content
    ensures r.Ok? ==> r.value.isPinned == body.isPinned && r.value.isJournal == body.isJournal
    ensures r.Ok? ==> r.value.tagIds == body.tagIds.GetOr([])
    ensures r.Ok? && Truthy(body.date) ==> Some(r.value.date) == normalize(body.date.value)
    ensures r.Ok? && !Truthy(body.date) ==> r.value.date == now
  {
    if Truthy(body.date) && normalize(body.date.value).None? then
      Rejected(InvalidDate)
    else
      var date := if Truthy(body.date) then normalize(body.date.value) else None;
      Instantiate(id, NoteInput(body.title, body.content, body.tagIds, date,
                                body.isPinned, body.isJournal, caller), now)
  }

  /** POST /notes. */
  method Create(db: Store, caller: UserId, body: NoteBody, normalize: string -> Option<string>, now: string)
    returns (r: Response<Note>)
    requires db.Valid()
    modifies db
    ensures db.Valid() && db.tags == old(db.tags)
    ensures r == Build(old(db.nextId), caller, body, normalize, now)
    ensures r.Ok? ==> db.notes == old(db.notes) + [r.value]
    ensures r.Ok? ==> forall n :: n in old(db.notes) ==> n.id != r.value.id
    ensures r.Ok? ==> Get(db, caller, r.value.id) == r
    ensures !r.Ok? ==> db.notes == old(db.notes)
    ensures OtherNotesUnchanged(old(db.notes), db.notes, caller)
  {
    r := Build(db.nextId, caller, body, normalize, now);
    if r.Ok? {
      db.InsertNote(r.value);
    }
  }

  /** The update document of PUT /notes/:id: all six body fields, so
      `isJournal` can be set here. */
  function PatchOf(body: NoteBody): (p: NotePatch)
    ensures p.isJournal == body.isJournal
    ensures body == NoteBody(None, None, None, None, None, None) ==> p == NoChange
    ensures forall n :: Apply(n, p).title == Overwrite(n.title, body.title)
    ensures forall n :: Apply(n, p).content == Overwrite(n.content, body.content)
    ensures forall n :: Apply(n, p).tagIds == body.tagIds.GetOr(n.tagIds)
    ensures forall n :: Apply(n, p).date == body.date.GetOr(n.date)
    ensures forall n :: Apply(n, p).isPinned == Overwrite(n.isPinned, body.isPinned)
    ensures forall n :: Apply(n, p).isJournal == Overwrite(n.isJournal, body.isJournal)
  {
    NotePatch(body.title, body.content, body.tagIds, body.date, body.isPinned, body.isJournal)
  }

  /** PUT /notes/:id: only the caller's note with that id is rewritten, and
      the answer is the note after the update. Setting `isJournal` moves
      the note into or out of the caller's journal list. */
  method Update(db: Store, caller: UserId, id: Id, body: NoteBody) returns (r: Response<Note>)
    requires db.Valid()
    modifies db
    ensures db.Valid() && db.tags == old(db.tags) && db.nextId == old(db.nextId)
    ensures old(Get(db, caller, id)).NotFound? ==> r == NotFound && db.notes == old(db.notes)
    ensures old(Get(db, caller, id)).Ok? ==> r == Ok(Apply(old(Get(db, caller, id)).value, PatchOf(body)))
    ensures r.Ok? ==> db.notes == old(db.notes)[FindNote(old(db.notes), id, caller, false) := r.value]
    ensures r.Ok? ==> Get(db, caller, id) == r
    ensures r.Ok? && body.isJournal.Some? ==>
              (r.value in SelectNotes(db.notes, caller, true) <==> body.isJournal.value)
    ensures OtherNotesUnchanged(old(db.notes), db.notes, caller)
  {
    var k := FindNote(db.notes, id, caller, false);
    if k < 0 {
      return NotFound;
    }
    var n := Apply(db.notes[k], PatchOf(body));
    FindNoteAfterReplace(db.notes, k, n, caller, false);
    db.ReplaceNote(k, n);
    r := Ok(n);
  }

  /** DELETE /notes/:id: removes the caller's note with that id, journal
      or not; afterwards the id is not found, so a second delete fails. */
  method Delete(db: Store, caller: UserId, id: Id) returns (deleted: bool)
    requires db.Valid()
    modifies db
    ensures db.Valid() && db.tags == old(db.tags) && db.nextId == old(db.nextId)
    ensures deleted <==> old(Get(db, caller, id)).Ok?
    ensures !deleted ==> db.notes == old(db.notes)
    ensures deleted ==> forall n :: n in old(db.notes) && n.id != id ==> n in db.notes
    ensures forall n :: n in db.notes ==> n in old(db.notes)
    ensures Get(db, caller, id) == NotFound
    ensures OtherNotesUnchanged(old(db.notes), db.notes, caller)
  {
    var k := FindNote(db.notes, id, caller, false);
    if k < 0 {
      return false;
    }
    db.RemoveNote(k);
    deleted := true;
  }
}
