/** The `/tags` handlers (routes/tags.js): owner-scoped list, create and
    partial update, and a delete that then pulls the tag's id out of the
    caller's notes. */
module TagsRoute {
  import opened Records
  import opened TagSchema
  import opened DocumentStore

  /** GET /tags: exactly the caller's tags. */
  function List(db: Store, caller: UserId): (r: seq<Tag>)
    reads db
    ensures forall t :: t in r <==> t in db.tags && t.userId == caller
  {
    SelectTags(db.tags, caller)
  }

  /** POST /tags: the body's name and colour, owned by the caller. Two tags
      of one user may share a name: only a missing name or owner rejects. */
  method Create(db: Store, caller: UserId, body: TagBody) returns (r: Response<Tag>)
    requires db.Valid()
    modifies db
    ensures db.Valid() && db.notes == old(db.notes)
    ensures r == Instantiate(old(db.nextId), body.name, body.color, caller)
    ensures r.Ok? ==> db.tags == old(db.tags) + [r.value] && r.value in List(db, caller)
    ensures r.Ok? ==> forall t :: t in old(db.tags) ==> t.id != r.value.id
    ensures !r.Ok? ==> db.tags == old(db.tags)
    ensures OtherTagsUnchanged(old(db.tags), db.tags, caller)
  {
    r := Instantiate(db.nextId, body.name, body.color, caller);
    if r.Ok? {
      db.InsertTag(r.value);
    }
  }

  /** The update document of PUT /tags/:id: only the body's defined keys. */
  function PatchOf(body: TagBody): (p: TagPatch)
    ensures forall t :: Apply(t, p).name == body.name.GetOr(t.name)
    ensures forall t :: Apply(t, p).color == body.color.GetOr(t.color)
  {
    TagPatch(body.name, body.color)
  }

  /** PUT /tags/:id. The update validators run first, so an empty name is
      refused even when no tag matches; otherwise only the caller's tag
      with that id changes, and only in the supplied fields. */
  method Update(db: Store, caller: UserId, id: Id, body: TagBody) returns (r: Response<Tag>)
    requires db.Valid()
    modifies db
    ensures db.Valid() && db.notes == old(db.notes) && db.nextId == old(db.nextId)
    ensures !PatchAccepted(PatchOf(body)) ==> r == Rejected(ValidationFailed)
    ensures PatchAccepted(PatchOf(body)) ==> (r.NotFound? <==> FindTag(old(db.tags), id, caller) < 0)
    ensures PatchAccepted(PatchOf(body)) ==> !r.Rejected?
    ensures !r.Ok? ==> db.tags == old(db.tags)
    ensures r.Ok? ==> var k := FindTag(old(db.tags), id, caller);
              0 <= k && r.value == Apply(old(db.tags)[k], PatchOf(body)) && db.tags == old(db.tags)[k := r.value]
    ensures r.Ok? ==> r.value.id == id && r.value.userId == caller && r.value in List(db, caller)
    ensures OtherTagsUnchanged(old(db.tags), db.tags, caller)
  {
    var patch := PatchOf(body);
    if !PatchAccepted(patch) {
      return Rejected(ValidationFailed);
    }
    var k := FindTag(db.tags, id, caller);
    if k < 0 {
      return NotFound;
    }
    var t := Apply(db.tags[k], patch);
    db.ReplaceTag(k, t);
    assert db.tags[k] == t;
    r := Ok(t);
  }

  /** DELETE /tags/:id. When no tag of the caller has that id the answer is
      NotFound and nothing changes, notes included. Otherwise the tag is
      removed, and then every note of the caller loses every occurrence of
      the id in its tagIds; other users' notes are untouched even when they
      hold the same id. */
  method Delete(db: Store, caller: UserId, id: Id) returns (deleted: bool)
    requires db.Valid()
    modifies db
    ensures db.Valid() && db.nextId == old(db.nextId)
    ensures deleted <==> FindTag(old(db.tags), id, caller) >= 0
    ensures !deleted ==> db.tags == old(db.tags) && db.notes == old(db.notes)
    ensures deleted ==> var k := FindTag(old(db.tags), id, caller);
              db.tags == old(db.tags)[..k] + old(db.tags)[k + 1..]
    ensures deleted ==> forall t :: t in db.tags ==> t.id != id
    ensures deleted ==> |db.notes| == |old(db.notes)|
    ensures deleted ==> forall i :: 0 <= i < |db.notes| ==> db.notes[i] == PullTag(old(db.notes)[i], caller, id)
    ensures deleted ==> forall n :: n in db.notes && n.userId == caller ==> id !in n.tagIds
    ensures OtherTagsUnchanged(old(db.tags), db.tags, caller)
    ensures OtherNotesUnchanged(old(db.notes), db.notes, caller)
  {
    var k := FindTag(db.tags, id, caller);
    if k < 0 {
      return false;
    }
    db.RemoveTag(k);
    db.PullFromNotes(caller, id);
    deleted := true;
  }
}
