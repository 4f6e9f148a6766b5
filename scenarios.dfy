/** Request sequences against a fresh store, each proved from the handlers'
    contracts alone: what a client observes across several calls. */
module Scenarios {
  import opened Records
  import opened NoteSchema
  import opened TagSchema
  import opened DocumentStore
  import NotesRoute
  import JournalsRoute
  import TagsRoute

  /** A body with only a title and content, and the given tag ids. */
  function PlainBody(tagIds: seq<Id>): NoteBody {
    NoteBody(Some("t"), Some("c"), Some(tagIds), None, None, None)
  }

  /** A note of the caller tagged with exactly the deleted tag ends up
      with no tags. */
  lemma PullOnlyTag(n: Note, caller: UserId, id: Id)
    requires n.userId == caller && n.tagIds == [id]
    ensures PullTag(n, caller, id) == n.(tagIds := [])
  {
  }

  /** In a store holding one note, its owner finds it by its id. */
  lemma FindOnly(n: Note)
    ensures FindNote([n], n.id, n.userId, false) == 0
  {
  }

  /** POST /tags, then POST /notes with a note that references the tag. */
  method TagAndNote(caller: UserId, normalize: string -> Option<string>, now: string)
    returns (db: Store, tag: Response<Tag>, note: Response<Note>)
    requires caller != ""
    ensures fresh(db) && db.Valid()
    ensures tag.Ok? && tag.value.name == "work" && tag.value.color == "#00f" && tag.value.userId == caller
    ensures note.Ok? && note.value.tagIds == [tag.value.id] && note.value.userId == caller && note.value.date == now
    ensures db.tags == [tag.value] && db.notes == [note.value]
  {
    db := new Store();
    tag := TagsRoute.Create(db, caller, TagBody(Some("work"), Some("#00f")));
    note := NotesRoute.Create(db, caller, PlainBody([tag.value.id]), normalize, now);
  }

  /** Create a tag, create a note that references it, delete the tag: the
      note read back afterwards no longer references the tag. */
  method DeleteTagUntagsNote(caller: UserId, normalize: string -> Option<string>, now: string)
    returns (tag: Response<Tag>, note: Response<Note>, deleted: bool, after: Response<Note>)
    requires caller != ""
    ensures tag.Ok? && tag.value.name == "work" && tag.value.color == "#00f" && tag.value.userId == caller
    ensures note.Ok? && note.value.tagIds == [tag.value.id] && note.value.date == now
    ensures deleted
    ensures after == Ok(note.value.(tagIds := []))
  {
    var db;
    db, tag, note := TagAndNote(caller, normalize, now);
    var id := tag.value.id;
    assert db.tags[0].id == id && db.tags[0].userId == caller;
    deleted := TagsRoute.Delete(db, caller, id);
    PullOnlyTag(note.value, caller, id);
    var untagged := note.value.(tagIds := []);
    assert db.notes == [untagged];
    FindOnly(untagged);
    after := NotesRoute.Get(db, caller, note.value.id);
  }

  /** A note of one user is neither listed nor found for another user, on
      either path, and the other user's update and delete miss it. */
  method OwnerIsolation(a: UserId, b: UserId, body: NoteBody, normalize: string -> Option<string>, now: string)
    returns (note: Response<Note>, listed: seq<Note>, got: Response<Note>, updated: Response<Note>, deleted: bool, kept: Response<Note>)
    requires a != "" && a != b
    requires !(Truthy(body.date) && normalize(body.date.value).None?)
    ensures note.Ok? && note.value.userId == a
    ensures note.value !in listed
    ensures got == NotFound && updated == NotFound && !deleted
    ensures kept == note
  {
    var db := new Store();
    note := NotesRoute.Create(db, a, body, normalize, now);
    listed := NotesRoute.List(db, b);
    got := NotesRoute.Get(db, b, note.value.id);
    updated := NotesRoute.Update(db, b, note.value.id, body);
    deleted := NotesRoute.Delete(db, b, note.value.id);
    kept := NotesRoute.Get(db, a, note.value.id);
  }

  /** Deleting a note twice: the first delete succeeds, then the note is
      not found and the second delete fails. */
  method DeleteTwice(caller: UserId, normalize: string -> Option<string>, now: string)
    returns (first: bool, got: Response<Note>, second: bool)
    requires caller != ""
    ensures first && got == NotFound && !second
  {
    var db := new Store();
    var note := JournalsRoute.Create(db, caller, PlainBody([]), normalize, now);
    first := NotesRoute.Delete(db, caller, note.value.id);
    got := NotesRoute.Get(db, caller, note.value.id);
    second := NotesRoute.Delete(db, caller, note.value.id);
  }

  /** A note created on the note path without `isJournal` is invisible to
      the journal path: not listed, not found, not updated, not deleted;
      once the note path sets `isJournal`, the journal path finds it. */
  method JournalView(caller: UserId, normalize: string -> Option<string>, now: string)
    returns (listed: seq<Note>, got: Response<Note>, updated: Response<Note>, deleted: bool, moved: Response<Note>, found: Response<Note>)
    requires caller != ""
    ensures listed == [] && got == NotFound && updated == NotFound && !deleted
    ensures moved.Ok? && found == moved
  {
    var db := new Store();
    var note := NotesRoute.Create(db, caller, PlainBody([]), normalize, now);
    listed := JournalsRoute.List(db, caller);
    got := JournalsRoute.Get(db, caller, note.value.id);
    updated := JournalsRoute.Update(db, caller, note.value.id, PlainBody([]));
    deleted := JournalsRoute.Delete(db, caller, note.value.id);
    var toJournal := PlainBody([]).(isJournal := Some(true));
    moved := NotesRoute.Update(db, caller, note.value.id, toJournal);
    found := JournalsRoute.Get(db, caller, note.value.id);
  }

  /** Updating only a tag's colour keeps its name; a second tag with the
      same name is accepted. */
  method TagColorUpdate(caller: UserId) returns (tag: Response<Tag>, twin: Response<Tag>, recolored: Response<Tag>)
    requires caller != ""
    ensures tag.Ok? && twin.Ok? && twin.value.name == tag.value.name && twin.value.id != tag.value.id
    ensures recolored == Ok(tag.value.(color := "#fff"))
  {
    var db := new Store();
    tag := TagsRoute.Create(db, caller, TagBody(Some("work"), None));
    twin := TagsRoute.Create(db, caller, TagBody(Some("work"), None));
    assert db.tags == [tag.value, twin.value];
    assert db.tags[0].id == tag.value.id && db.tags[0].userId == caller;
    assert FindTag(db.tags, tag.value.id, caller) == 0;
    recolored := TagsRoute.Update(db, caller, tag.value.id, TagBody(None, Some("#fff")));
  }
}
