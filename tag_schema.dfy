/** The Tag schema (models/Tag.js): a required name, a colour defaulting to
    '#999', and a required owner; nothing makes names unique. */
module TagSchema {
  import opened Records

  /** The colour a tag gets when none is supplied. */
  const DefaultColor: string := "#999"

  datatype Tag = Tag(id: Id, name: string, color: string, userId: UserId)

  /** Whether a value satisfies a required String path: present and not
      the empty string. */
  predicate Required(s: Option<string>) {
    s.Some? && s.value != ""
  }

  /** A stored tag has a name and an owner. */
  predicate WellFormed(t: Tag) {
    t.name != "" && t.userId != ""
  }

  /** `new Tag({ name, color, userId })` followed by `save()`: validation
      fails without a name or an owner; the colour is kept as given, and
      defaults only when it is absent. */
  function Instantiate(id: Id, name: Option<string>, color: Option<string>, owner: UserId): (r: Response<Tag>)
    ensures !r.NotFound?
    ensures r.Ok? <==> Required(name) && owner != ""
    ensures r.Rejected? ==> r.why == ValidationFailed
    ensures r.Ok? ==> WellFormed(r.value)
    ensures r.Ok? ==> r.value.id == id && r.value.name == name.value && r.value.userId == owner
    ensures r.Ok? && color.None? ==> r.value.color == DefaultColor
    ensures r.Ok? && color.Some? ==> r.value.color == color.value
  {
    if !Required(name) || owner == "" then
      Rejected(ValidationFailed)
    else
      Ok(Tag(id, name.value, color.GetOr(DefaultColor), owner))
  }

  /** The update document of a tag PUT: only the paths the body defines. */
  datatype TagPatch = TagPatch(name: Option<string>, color: Option<string>)

  /** Whether the update validators (`runValidators`) accept the patch: they
      check only the paths being set, so only an empty name fails. */
  predicate PatchAccepted(p: TagPatch): (r: bool)
    ensures p.name.None? ==> r
    ensures r && p.name.Some? ==> Required(p.name)
    ensures !r ==> p.name == Some("")
  {
    p.name != Some("")
  }

  /** The tag `findOneAndUpdate` returns: supplied paths overwritten, the
      others (and the id and owner) untouched. */
  function Apply(t: Tag, p: TagPatch): (r: Tag)
    ensures r.id == t.id && r.userId == t.userId
    ensures p.name.None? ==> r.name == t.name
    ensures p.color.None? ==> r.color == t.color
    ensures p.name.Some? ==> r.name == p.name.value
    ensures p.color.Some? ==> r.color == p.color.value
    ensures WellFormed(t) && PatchAccepted(p) ==> WellFormed(r)
  {
    t.(name := p.name.GetOr(t.name), color := p.color.GetOr(t.color))
  }

  /** Repeating a tag update changes nothing more. */
  lemma ApplyIdempotent(t: Tag, p: TagPatch)
    ensures Apply(Apply(t, p), p) == Apply(t, p)
  {
  }
}
