/** The Note schema (models/Note.js): the record shape, the defaults the model
    fills in on construction, the required owner, and how a partial update
    ($set of the supplied paths only) rewrites a stored note. */
module NoteSchema {
  import opened Records

  /** A stored note. `date` is always present once saved (the schema
      default fills it), `tagIds` is an ordered list of Tag references, and
      `isPinned`/`isJournal` are plain booleans with no default. */
  datatype Note = Note(
    id: Id,
    title: Option<string>,
    content: Option<string>,
    date: string,
    tagIds: seq<Id>,
    isPinned: Option<bool>,
    isJournal: Option<bool>,
    userId: UserId)

  /** The object a handler passes to the model constructor; `None` is a
      path left `undefined`. The owner is always supplied by the handler. */
  datatype NoteInput = NoteInput(
    title: Option<string>,
    content: Option<string>,
    tagIds: Option<seq<Id>>,
    date: Option<string>,
    isPinned: Option<bool>,
    isJournal: Option<bool>,
    userId: UserId)

  /** A stored note is saveable only with an owner (a required String path
      rejects the empty string as well as a missing value). */
  predicate HasOwner(n: Note) {
    n.userId != ""
  }

  /** Construct and validate a note document, as `new Note(doc)` followed by
      `save()` does. `now` is the ISO rendering of the clock, which the
      `date` default would produce. */
  function Instantiate(id: Id, doc: NoteInput, now: string): (r: Response<Note>)
    ensures !r.NotFound?
    ensures r.Ok? <==> doc.userId != ""
    ensures r.Rejected? ==> r.why == ValidationFailed
    ensures r.Ok? ==> r.value.id == id && r.value.userId == doc.userId && HasOwner(r.value)
    ensures r.Ok? ==> r.value.title == doc.title && r.value.content == doc.content
    ensures r.Ok? ==> r.value.isPinned == doc.isPinned && r.value.isJournal == doc.isJournal
    ensures r.Ok? && doc.date.None? ==> r.value.date == now
    ensures r.Ok? && doc.date.Some? ==> r.value.date == doc.date.value
    ensures r.Ok? && doc.tagIds.None? ==> r.value.tagIds == []
    ensures r.Ok? && doc.tagIds.Some? ==> r.value.tagIds == doc.tagIds.value
  {
    if doc.userId == "" then
      Rejected(ValidationFailed)
    else
      Ok(Note(id, doc.title, doc.content, doc.date.GetOr(now), doc.tagIds.GetOr([]),
              doc.isPinned, doc.isJournal, doc.userId))
  }

  /** The update document of a note PUT, after undefined keys are dropped:
      `None` leaves the stored path alone. */
  datatype NotePatch = NotePatch(
    title: Option<string>,
    content: Option<string>,
    tagIds: Option<seq<Id>>,
    date: Option<string>,
    isPinned: Option<bool>,
    isJournal: Option<bool>)

  const NoChange := NotePatch(None, None, None, None, None, None)

  /** Overwrite with `supplied` when present, otherwise keep `current`. */
  function Overwrite<T>(current: Option<T>, supplied: Option<T>): Option<T> {
    if supplied.Some? then supplied else current
  }

  /** The note `findOneAndUpdate(..., patch, { new: true })` returns: each
      supplied path is overwritten, every other path keeps its value, and
      neither `_id` nor `userId` can change because the patch has no such
      paths. */
  function Apply(n: Note, p: NotePatch): (r: Note)
    ensures r.id == n.id && r.userId == n.userId
    ensures p == NoChange ==> r == n
    ensures p.title.None? ==> r.title == n.title
    ensures p.content.None? ==> r.content == n.content
    ensures p.tagIds.None? ==> r.tagIds == n.tagIds
    ensures p.date.None? ==> r.date == n.date
    ensures p.isPinned.None? ==> r.isPinned == n.isPinned
    ensures p.isJournal.None? ==> r.isJournal == n.isJournal
    ensures p.title.Some? ==> r.title == p.title
    ensures p.content.Some? ==> r.content == p.content
    ensures p.tagIds.Some? ==> r.tagIds == p.tagIds.value
    ensures p.date.Some? ==> r.date == p.date.value
    ensures p.isPinned.Some? ==> r.isPinned == p.isPinned
    ensures p.isJournal.Some? ==> r.isJournal == p.isJournal
  {
    n.(title := Overwrite(n.title, p.title),
       content := Overwrite(n.content, p.content),
       tagIds := p.tagIds.GetOr(n.tagIds),
       date := p.date.GetOr(n.date),
       isPinned := Overwrite(n.isPinned, p.isPinned),
       isJournal := Overwrite(n.isJournal, p.isJournal))
  }

  /** The patch that has the paths of `q`, and those of `p` that `q` lacks. */
  function Then(p: NotePatch, q: NotePatch): NotePatch {
    NotePatch(Overwrite(p.title, q.title), Overwrite(p.content, q.content),
              Overwrite(p.tagIds, q.tagIds), Overwrite(p.date, q.date),
              Overwrite(p.isPinned, q.isPinned), Overwrite(p.isJournal, q.isJournal))
  }

  /** Two successive updates act as one update with the merged paths; in
      particular repeating the same update changes nothing more. */
  lemma ApplyThen(n: Note, p: NotePatch, q: NotePatch)
    ensures Apply(Apply(n, p), q) == Apply(n, Then(p, q))
    ensures Apply(Apply(n, p), p) == Apply(n, p)
  {
  }
}
