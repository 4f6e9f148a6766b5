/** Shared vocabulary of the note/tag service: identifiers, optional values,
    handler outcomes and the request bodies the handlers destructure. */
module Records {

  /** A document id (a MongoDB ObjectId), issued by the store. */
  type Id = nat

  /** The verified subject id of the caller, taken from the bearer token. */
  type UserId = string

  datatype Option<T> = None | Some(value: T) {
    function GetOr(default: T): T {
      match this
      case Some(v) => v
      case None => default
    }
  }

  /** Why a write was refused before anything was stored. */
  datatype Rejection =
    | ValidationFailed  // a required schema path is missing or empty
    | InvalidDate       // `new Date(date).toISOString()` threw a RangeError

  /** What a handler answers: the record (200), "not found" (404), or a
      rejected write (an exception the handler does not catch). */
  datatype Response<T> = Ok(value: T) | NotFound | Rejected(why: Rejection)

  /** The fields the note and journal handlers read from a request body;
      `None` is a key the client did not send. */
  datatype NoteBody = NoteBody(
    title: Option<string>,
    content: Option<string>,
    tagIds: Option<seq<Id>>,
    date: Option<string>,
    isPinned: Option<bool>,
    isJournal: Option<bool>)

  /** The fields the tag handlers read from a request body. */
  datatype TagBody = TagBody(name: Option<string>, color: Option<string>)

  /** JavaScript truthiness of an optional string: present and non-empty. */
  predicate Truthy(s: Option<string>): (r: bool)
    ensures r ==> s.Some?
    ensures s.None? || s == Some("") ==> !r
    ensures s.Some? && s.value != "" ==> r
  {
    s.Some? && s.value != ""
  }
}
