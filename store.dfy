/** The document store behind the handlers: the Note and Tag collections,
    the owner-scoped filters the handlers query them with, and the writes
    they issue (insert, update one, delete one, and the bulk `$pull`). */
module DocumentStore {
  import opened Records
  import opened NoteSchema
  import opened TagSchema

  // ---------------------------------------------------------------------
  // Filters

  /** The note filter `{ userId: owner }`, with `isJournal: true` added on
      the journal path. */
  predicate NoteInScope(n: Note, owner: UserId, journalOnly: bool): (r: bool)
    ensures r ==> n.userId == owner
    ensures !journalOnly ==> (r <==> n.userId == owner)
    ensures journalOnly ==> (r <==> n.userId == owner && n.isJournal == Some(true))
  {
    n.userId == owner && (journalOnly ==> n.isJournal == Some(true))
  }

  /** `Note.find(filter)`: the notes in scope, in store order. */
  function SelectNotes(ns: seq<Note>, owner: UserId, journalOnly: bool): (r: seq<Note>)
    ensures forall n :: n in r <==> n in ns && NoteInScope(n, owner, journalOnly)
    ensures |r| <= |ns|
  {
    if ns == [] then []
    else (if NoteInScope(ns[0], owner, journalOnly) then [ns[0]] else [])
         + SelectNotes(ns[1..], owner, journalOnly)
  }

  /** The position `findOne({ _id: id, ...filter })` picks: the first note
      with that id in scope, or -1 when there is none. */
  function FindNote(ns: seq<Note>, id: Id, owner: UserId, journalOnly: bool): (k: int)
    ensures -1 <= k < |ns|
    ensures k == -1 <==> forall i :: 0 <= i < |ns| ==> ns[i].id != id || !NoteInScope(ns[i], owner, journalOnly)
    ensures 0 <= k ==> ns[k].id == id && NoteInScope(ns[k], owner, journalOnly)
    ensures 0 <= k ==> forall i :: 0 <= i < k ==> ns[i].id != id || !NoteInScope(ns[i], owner, journalOnly)
  {
    if ns == [] then -1
    else if ns[0].id == id && NoteInScope(ns[0], owner, journalOnly) then 0
    else
      var k := FindNote(ns[1..], id, owner, journalOnly);
      if k == -1 then -1 else k + 1
  }

  /** `Tag.find({ userId: owner })`. */
  function SelectTags(ts: seq<Tag>, owner: UserId): (r: seq<Tag>)
    ensures forall t :: t in r <==> t in ts && t.userId == owner
    ensures |r| <= |ts|
  {
    if ts == [] then []
    else (if ts[0].userId == owner then [ts[0]] else []) + SelectTags(ts[1..], owner)
  }

  /** The position `findOne({ _id: id, userId: owner })` picks among tags. */
  function FindTag(ts: seq<Tag>, id: Id, owner: UserId): (k: int)
    ensures -1 <= k < |ts|
    ensures k == -1 <==> forall i :: 0 <= i < |ts| ==> ts[i].id != id || ts[i].userId != owner
    ensures 0 <= k ==> ts[k].id == id && ts[k].userId == owner
  {
    if ts == [] then -1
    else if ts[0].id == id && ts[0].userId == owner then 0
    else
      var k := FindTag(ts[1..], id, owner);
      if k == -1 then -1 else k + 1
  }

  /** Rewriting the matched note with one that still matches keeps it the
      one `findOne` picks: a read after an update sees the update. */
  lemma FindNoteAfterReplace(s: seq<Note>, k: nat, n: Note, owner: UserId, journalOnly: bool)
    requires k < |s| && FindNote(s, n.id, owner, journalOnly) == k
    requires NoteInScope(n, owner, journalOnly)
    ensures FindNote(s[k := n], n.id, owner, journalOnly) == k
  {
    var t := s[k := n];
    assert t[k].id == n.id && NoteInScope(t[k], owner, journalOnly);
    assert forall i :: 0 <= i < k ==> t[i] == s[i];
  }

  // ---------------------------------------------------------------------
  // The `$pull` of a tag id

  /** `$pull: { tagIds: x }` on one array: every occurrence of `x` goes,
      every other id keeps its number of occurrences. */
  function PullAll(ids: seq<Id>, x: Id): (r: seq<Id>)
    ensures x !in r
    ensures forall y :: y != x ==> multiset(r)[y] == multiset(ids)[y]
    ensures x !in ids ==> r == ids
    ensures |r| <= |ids|
  {
    if ids == [] then []
    else
      var rest := PullAll(ids[1..], x);
      assert ids == [ids[0]] + ids[1..];
      if ids[0] == x then rest else [ids[0]] + rest
  }

  /** `$pull` works element by element: on a concatenation it pulls from
      each part and keeps the parts, and so every remaining id, in order. */
  lemma {:induction false} PullAllAppend(a: seq<Id>, b: seq<Id>, x: Id)
    ensures PullAll(a + b, x) == PullAll(a, x) + PullAll(b, x)
  {
    if a == [] {
      assert a + b == b;
    } else {
      assert (a + b)[1..] == a[1..] + b;
      PullAllAppend(a[1..], b, x);
    }
  }

  /** What `updateMany({ tagIds: tagId, userId: owner }, { $pull: ... })`
      does to one note: an owned note that holds the id loses every
      occurrence of it; any other note is left as it is. */
  function PullTag(n: Note, owner: UserId, tagId: Id): (r: Note)
    ensures r == n.(tagIds := r.tagIds)
    ensures r.userId == owner ==> tagId !in r.tagIds
    ensures r.userId != owner ==> r == n
    ensures r.userId == owner ==> r.tagIds == PullAll(n.tagIds, tagId)
    ensures forall y :: y != tagId ==> multiset(r.tagIds)[y] == multiset(n.tagIds)[y]
  {
    if n.userId == owner && tagId in n.tagIds then n.(tagIds := PullAll(n.tagIds, tagId)) else n
  }

  // ---------------------------------------------------------------------
  // Owner isolation of the filters

  /** Selection distributes over concatenation, so it keeps store order. */
  lemma {:induction false} SelectNotesAppend(a: seq<Note>, b: seq<Note>, owner: UserId, journalOnly: bool)
    ensures SelectNotes(a + b, owner, journalOnly) == SelectNotes(a, owner, journalOnly) + SelectNotes(b, owner, journalOnly)
  {
    if a == [] {
      assert a + b == b;
    } else {
      assert (a + b)[1..] == a[1..] + b;
      SelectNotesAppend(a[1..], b, owner, journalOnly);
    }
  }

  /** Changing only notes outside a scope does not change what the scope
      selects. */
  lemma {:induction false} SelectNotesPointwise(s: seq<Note>, t: seq<Note>, owner: UserId, journalOnly: bool)
    requires |s| == |t|
    requires forall i :: 0 <= i < |s| && s[i] != t[i] ==>
               !NoteInScope(s[i], owner, journalOnly) && !NoteInScope(t[i], owner, journalOnly)
    ensures SelectNotes(s, owner, journalOnly) == SelectNotes(t, owner, journalOnly)
  {
    if s != [] {
      SelectNotesPointwise(s[1..], t[1..], owner, journalOnly);
    }
  }

  /** Removing a note outside a scope does not change what the scope
      selects. */
  lemma SelectNotesRemove(s: seq<Note>, k: nat, owner: UserId, journalOnly: bool)
    requires k < |s| && !NoteInScope(s[k], owner, journalOnly)
    ensures SelectNotes(s[..k] + s[k + 1..], owner, journalOnly) == SelectNotes(s, owner, journalOnly)
  {
    assert s == s[..k] + ([s[k]] + s[k + 1..]);
    SelectNotesAppend(s[..k], [s[k]] + s[k + 1..], owner, journalOnly);
    SelectNotesAppend([s[k]], s[k + 1..], owner, journalOnly);
    SelectNotesAppend(s[..k], s[k + 1..], owner, journalOnly);
  }

  lemma {:induction false} SelectTagsAppend(a: seq<Tag>, b: seq<Tag>, owner: UserId)
    ensures SelectTags(a + b, owner) == SelectTags(a, owner) + SelectTags(b, owner)
  {
    if a == [] {
      assert a + b == b;
    } else {
      assert (a + b)[1..] == a[1..] + b;
      SelectTagsAppend(a[1..], b, owner);
    }
  }

  lemma {:induction false} SelectTagsPointwise(s: seq<Tag>, t: seq<Tag>, owner: UserId)
    requires |s| == |t|
    requires forall i :: 0 <= i < |s| && s[i] != t[i] ==> s[i].userId != owner && t[i].userId != owner
    ensures SelectTags(s, owner) == SelectTags(t, owner)
  {
    if s != [] {
      SelectTagsPointwise(s[1..], t[1..], owner);
    }
  }

  lemma SelectTagsRemove(s: seq<Tag>, k: nat, owner: UserId)
    requires k < |s| && s[k].userId != owner
    ensures SelectTags(s[..k] + s[k + 1..], owner) == SelectTags(s, owner)
  {
    assert s == s[..k] + ([s[k]] + s[k + 1..]);
    SelectTagsAppend(s[..k], [s[k]] + s[k + 1..], owner);
    SelectTagsAppend([s[k]], s[k + 1..], owner);
    SelectTagsAppend(s[..k], s[k + 1..], owner);
  }

  /** Every other user sees the same notes, in both views, before and
      after. */
  ghost predicate OtherNotesUnchanged(before: seq<Note>, after: seq<Note>, owner: UserId) {
    forall u, journalOnly :: u != owner ==>
      SelectNotes(after, u, journalOnly) == SelectNotes(before, u, journalOnly)
  }

  /** Every other user sees the same tags before and after. */
  ghost predicate OtherTagsUnchanged(before: seq<Tag>, after: seq<Tag>, owner: UserId) {
    forall u :: u != owner ==> SelectTags(after, u) == SelectTags(before, u)
  }

  // ---------------------------------------------------------------------
  // The collections

  predicate UniqueNoteIds(ns: seq<Note>) {
    forall i, j :: 0 <= i < j < |ns| ==> ns[i].id != ns[j].id
  }

  predicate UniqueTagIds(ts: seq<Tag>) {
    forall i, j :: 0 <= i < j < |ts| ==> ts[i].id != ts[j].id
  }

  /** The Note and Tag collections. `nextId` stands for the ObjectId
      generator: every id it has issued is below it. */
  class Store {
    var notes: seq<Note>
    var tags: seq<Tag>
    var nextId: Id

    /** Ids are unique per collection and were issued by the generator;
        every stored note has an owner, every stored tag a name and an
        owner (the schemas' required paths). */
    ghost predicate Valid()
      reads this
    {
      && UniqueNoteIds(notes)
      && UniqueTagIds(tags)
      && (forall i :: 0 <= i < |notes| ==> notes[i].id < nextId && HasOwner(notes[i]))
      && (forall i :: 0 <= i < |tags| ==> tags[i].id < nextId && WellFormed(tags[i]))
    }

    constructor ()
      ensures Valid() && notes == [] && tags == []
    {
      notes, tags, nextId := [], [], 0;
    }

    /** `save()` of a new note carrying the next generated id. */
    method InsertNote(n: Note)
      requires Valid() && n.id == nextId && HasOwner(n)
      modifies this
      ensures Valid()
      ensures notes == old(notes) + [n] && tags == old(tags) && nextId == old(nextId) + 1
      ensures OtherNotesUnchanged(old(notes), notes, n.userId)
    {
      forall u, journalOnly | u != n.userId
        ensures SelectNotes(notes + [n], u, journalOnly) == SelectNotes(notes, u, journalOnly)
      {
        SelectNotesAppend(notes, [n], u, journalOnly);
      }
      notes := notes + [n];
      nextId := nextId + 1;
    }

    /** The write of `findOneAndUpdate` on the note at position `k`. */
    method ReplaceNote(k: nat, n: Note)
      requires Valid() && k < |notes| && n.id == notes[k].id && HasOwner(n)
      modifies this
      ensures Valid()
      ensures notes == old(notes)[k := n] && tags == old(tags) && nextId == old(nextId)
      ensures old(notes)[k].userId == n.userId ==> OtherNotesUnchanged(old(notes), notes, n.userId)
    {
      if notes[k].userId == n.userId {
        forall u, journalOnly | u != n.userId
          ensures SelectNotes(notes[k := n], u, journalOnly) == SelectNotes(notes, u, journalOnly)
        {
          SelectNotesPointwise(notes, notes[k := n], u, journalOnly);
        }
      }
      notes := notes[k := n];
    }

    /** The write of `findOneAndDelete` on the note at position `k`: the
        note is gone, so no filter on its id matches any more. */
    method RemoveNote(k: nat)
      requires Valid() && k < |notes|
      modifies this
      ensures Valid()
      ensures notes == old(notes)[..k] + old(notes)[k + 1..] && tags == old(tags) && nextId == old(nextId)
      ensures forall i :: 0 <= i < |notes| ==> notes[i].id != old(notes)[k].id
      ensures OtherNotesUnchanged(old(notes), notes, old(notes)[k].userId)
    {
      forall u, journalOnly | u != notes[k].userId
        ensures SelectNotes(notes[..k] + notes[k + 1..], u, journalOnly) == SelectNotes(notes, u, journalOnly)
      {
        SelectNotesRemove(notes, k, u, journalOnly);
      }
      notes := notes[..k] + notes[k + 1..];
    }

    /** `save()` of a new tag carrying the next generated id. */
    method InsertTag(t: Tag)
      requires Valid() && t.id == nextId && WellFormed(t)
      modifies this
      ensures Valid()
      ensures tags == old(tags) + [t] && notes == old(notes) && nextId == old(nextId) + 1
      ensures OtherTagsUnchanged(old(tags), tags, t.userId)
    {
      forall u | u != t.userId ensures SelectTags(tags + [t], u) == SelectTags(tags, u) {
        SelectTagsAppend(tags, [t], u);
      }
      tags := tags + [t];
      nextId := nextId + 1;
    }

    /** The write of `findOneAndUpdate` on the tag at position `k`. */
    method ReplaceTag(k: nat, t: Tag)
      requires Valid() && k < |tags| && t.id == tags[k].id && WellFormed(t)
      modifies this
      ensures Valid()
      ensures tags == old(tags)[k := t] && notes == old(notes) && nextId == old(nextId)
      ensures old(tags)[k].userId == t.userId ==> OtherTagsUnchanged(old(tags), tags, t.userId)
    {
      if tags[k].userId == t.userId {
        forall u | u != t.userId ensures SelectTags(tags[k := t], u) == SelectTags(tags, u) {
          SelectTagsPointwise(tags, tags[k := t], u);
        }
      }
      tags := tags[k := t];
    }

    /** The write of `findOneAndDelete` on the tag at position `k`. */
    method RemoveTag(k: nat)
      requires Valid() && k < |tags|
      modifies this
      ensures Valid()
      ensures tags == old(tags)[..k] + old(tags)[k + 1..] && notes == old(notes) && nextId == old(nextId)
      ensures forall i :: 0 <= i < |tags| ==> tags[i].id != old(tags)[k].id
      ensures OtherTagsUnchanged(old(tags), tags, old(tags)[k].userId)
    {
      forall u | u != tags[k].userId ensures SelectTags(tags[..k] + tags[k + 1..], u) == SelectTags(tags, u) {
        SelectTagsRemove(tags, k, u);
      }
      tags := tags[..k] + tags[k + 1..];
    }

    /** `Note.updateMany({ tagIds: tagId, userId: owner }, { $pull: { tagIds: tagId } })`,
        one note at a time. */
    method PullFromNotes(owner: UserId, tagId: Id)
      requires Valid()
      modifies this
      ensures Valid()
      ensures tags == old(tags) && nextId == old(nextId)
      ensures |notes| == |old(notes)|
      ensures forall i :: 0 <= i < |notes| ==> notes[i] == PullTag(old(notes)[i], owner, tagId)
      ensures forall i :: 0 <= i < |notes| && notes[i].userId == owner ==> tagId !in notes[i].tagIds
      ensures OtherNotesUnchanged(old(notes), notes, owner)
    {
      var i := 0;
      while i < |notes|
        invariant 0 <= i <= |notes| == |old(notes)|
        invariant tags == old(tags) && nextId == old(nextId)
        invariant forall j :: 0 <= j < i ==> notes[j] == PullTag(old(notes)[j], owner, tagId)
        invariant forall j :: i <= j < |notes| ==> notes[j] == old(notes)[j]
      {
        var n := notes[i];
        if n.userId == owner && tagId in n.tagIds {
          notes := notes[i := n.(tagIds := PullAll(n.tagIds, tagId))];
        }
        i := i + 1;
      }
      forall u, journalOnly | u != owner
        ensures SelectNotes(notes, u, journalOnly) == SelectNotes(old(notes), u, journalOnly)
      {
        SelectNotesPointwise(old(notes), notes, u, journalOnly);
      }
    }
  }
}
