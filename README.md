# Owner-scoped note, journal and tag store

A Dafny model of the data core of a multi-user notes backend (an Express
service over MongoDB through Mongoose). Every authenticated user owns
notes and tags. A journal entry is a note whose `isJournal` flag is true.
The model covers what the REST handlers do to the two collections:

- which filter selects the records (the caller's id, plus `isJournal: true`
  on the `/journals` path);
- which body fields are copied into a record, and which are forced or
  defaulted by the handler or by the schema;
- what a lookup, update or delete that matches nothing answers (NotFound,
  and nothing changes);
- the two-step tag delete: remove the tag, then pull its id out of every
  note of the caller.

Layout, one module per source file plus the store they share:

- `records.dfy` (`Records`): ids, `Option`, the handler outcome
  `Response<T> = Ok | NotFound | Rejected`, and the request bodies.
- `note_schema.dfy` (`NoteSchema`): the Note record, construction with
  its defaults and its required owner, and the partial update of a stored
  note.
- `tag_schema.dfy` (`TagSchema`): the Tag record, the `'#999'` colour
  default, the required name and owner, and the partial update.
- `store.dfy` (`DocumentStore`): the `Store` class holding
  `notes: seq<Note>`, `tags: seq<Tag>` and the id generator. It also holds
  the owner-scoped filters as functions, the writes as methods (the
  `$pull` cascade is a loop over `notes`), and the isolation lemmas.
- `notes_route.dfy`, `journals_route.dfy`, `tags_route.dfy`: one function
  per read handler and one method per write handler. The caller's id is a
  parameter.
- `scenarios.dfy`: request sequences against a fresh store, proved from
  the handler contracts alone. They cover the tag-delete cascade, isolation
  between two users, deleting twice, the journal view of a plain note, and
  a colour-only tag update.

The `Store` invariant `Valid()` says four things. Note ids are unique, and
so are tag ids. Every id is below the generator. Every note has an owner.
Every tag has a name and an owner. Every write method preserves it. Every
handler write proves `OtherNotesUnchanged` / `OtherTagsUnchanged` without
conditions: any other user's lists, plain and journal, are exactly what
they were. The store's own replace methods prove it only when the
replacement keeps the owner, which every handler's patch does.

The model follows the code on three points:

- The Note schema gives `isPinned` and `isJournal` no default (models/Note.js:8-9). They stay absent unless supplied, so a note created on `/notes` without `isJournal` is never listed by `/journals`.
- An unparsable body date makes `new Date(date).toISOString()` throw; it does not fall back to the current time. The model answers `Rejected(InvalidDate)` and stores nothing.
- The handlers do not check that `title` or `content` is present, and the Note schema does not require them (models/Note.js:4-5), although the API documentation lists them as required (config/swagger.js:51).

Modelling choices:

- **The clock and date parsing are parameters.** `now` is the ISO rendering of the clock. `normalize(d)` stands for `new Date(d).toISOString()` and is `None` where that throws.
- **Ids come from a counter.** ObjectIds are naturals issued by the store's `nextId` counter, so a new id is never already in use.
- **Validation failures are outcomes.** A save or update that fails validation is an exception the handlers do not catch. It is modelled as `Rejected(ValidationFailed)` with the store unchanged. A Mongoose required String path also rejects `""`.

## Model

| member | source | states |
|---|---|---|
| NoteSchema.Instantiate | models/Note.js:3-11 | Saving fails exactly when the owner is empty. `date` defaults to `now` only when undefined. `tagIds` defaults to `[]`. `title`, `content`, `isPinned` and `isJournal` are kept as given, absent included. |
| NoteSchema.Apply | routes/notes.js:155-160 | A note update overwrites each supplied path and keeps every omitted one. It never changes `_id` or `userId`. The empty patch is the identity. |
| NoteSchema.ApplyThen | routes/notes.js:155-160 | Two successive note updates equal one update with the merged paths, so repeating an update is idempotent. |
| TagSchema.Instantiate | models/Tag.js:3-7 | Saving fails exactly when the name is missing or empty, or the owner is empty. A supplied colour is kept, even `""`; an absent one becomes `'#999'`. Nothing depends on other tags, so names may repeat. |
| TagSchema.Apply | routes/tags.js:108-112 | Only the supplied `name`/`color` change, and the id and owner never change. A well-formed tag stays well-formed under an accepted patch. |
| TagSchema.ApplyIdempotent | routes/tags.js:108-112 | Applying the same tag patch twice gives the same tag as applying it once. |
| DocumentStore.SelectNotes | routes/journals.js:30 | `Note.find` returns exactly the notes with the caller's `userId` (and, on the journal path, `isJournal == true`). |
| DocumentStore.FindNote | routes/journals.js:110 | `findOne` by id picks the first in-scope note with that id. The result is -1 exactly when no note matches both id and owner (and journal flag). |
| DocumentStore.SelectTags | routes/tags.js:30 | `Tag.find` returns exactly the caller's tags. |
| DocumentStore.FindTag | routes/tags.js:109-110 | The tag `findOne` matches an id only among the caller's tags; -1 exactly when none matches. |
| DocumentStore.FindNoteAfterReplace | routes/notes.js:156-161 | After the matched note is rewritten with one still in scope, a lookup of that id finds the rewritten note at the same position. |
| DocumentStore.PullAll | routes/tags.js:160 | `$pull` removes every occurrence of the id and keeps the count of every other id. An array without the id is unchanged. |
| DocumentStore.PullAllAppend | routes/tags.js:160 | `$pull` works element by element over a concatenation, so the remaining ids keep their order. With PullAll's contract this fixes the result: the input with every occurrence of the id removed and the rest in order. |
| DocumentStore.PullTag | routes/tags.js:158-161 | The bulk update changes only `tagIds`. A caller's note's `tagIds` become exactly the PullAll of the old ones, so it ends without the id and keeps the other ids in order. Every other user's note is unchanged. |
| DocumentStore.NoteInScope | routes/journals.js:30 | The note filter matches exactly the caller's notes, and on the journal path only those whose `isJournal` is true (routes/notes.js:30 has no journal condition). |
| Records.Truthy | routes/notes.js:67 | The `date ?` test: an absent or empty date is falsy and any other string is truthy. |
| NotesRoute.PatchOf | routes/notes.js:155-158 | The note update document holds all six body fields. Applied to any note, each field becomes the body's value when supplied and keeps the stored one otherwise; `isJournal` is the body's, so this is the path that can set it. An empty body changes nothing. |
| TagsRoute.PatchOf | routes/tags.js:111 | The conditional spread: applied to any tag, `name` and `color` become the body's values when defined and keep the stored ones otherwise. |
| TagSchema.PatchAccepted | routes/tags.js:112 | `runValidators` checks only the paths being set: a patch without a name always passes, a passing name is a non-empty string, and only an empty name fails. |
| DocumentStore.SelectNotesAppend | routes/notes.js:30 | Note selection distributes over concatenation, so it keeps store order. |
| DocumentStore.SelectNotesPointwise | routes/notes.js:156-158 | Changing only notes outside a user's scope leaves that user's list unchanged. |
| DocumentStore.SelectNotesRemove | routes/notes.js:202 | Deleting a note outside a user's scope leaves that user's list unchanged. |
| DocumentStore.SelectTagsAppend | routes/tags.js:30 | Tag selection distributes over concatenation. |
| DocumentStore.SelectTagsPointwise | routes/tags.js:109-111 | Changing only other users' tags leaves a user's tag list unchanged. |
| DocumentStore.SelectTagsRemove | routes/tags.js:155 | Deleting another user's tag leaves a user's tag list unchanged. |
| DocumentStore.Store.InsertNote | routes/notes.js:72 | `save` appends the note under a fresh id. It keeps the invariant and leaves other users' lists unchanged. |
| DocumentStore.Store.ReplaceNote | routes/notes.js:156-160 | The write of `findOneAndUpdate` replaces one note in place and keeps the invariant. When the owner is unchanged, other users' lists are unchanged. |
| DocumentStore.Store.RemoveNote | routes/notes.js:202 | The write of `findOneAndDelete` removes one note. Afterwards no note has its id, and other users' lists are unchanged. |
| DocumentStore.Store.InsertTag | routes/tags.js:63-64 | `save` appends the tag under a fresh id, keeps the invariant and leaves the notes alone. |
| DocumentStore.Store.ReplaceTag | routes/tags.js:109-113 | The tag update replaces one tag in place and leaves the notes alone. |
| DocumentStore.Store.RemoveTag | routes/tags.js:155 | The tag delete removes one tag, and afterwards no tag has its id. |
| DocumentStore.Store.PullFromNotes | routes/tags.js:158-161 | `updateMany` with `$pull` rewrites each note as `PullTag` does, so no note of the owner keeps the id. Other users see the same notes. |
| NotesRoute.List | routes/notes.js:29-32 | The list holds exactly the caller's notes, journals included, and no other user's note. |
| NotesRoute.Get | routes/notes.js:109-113 | The result is found exactly when a note with that id is owned by the caller. A note of another user gives the same NotFound as a missing one. |
| NotesRoute.Build | routes/notes.js:61-71 | The owner is always the caller. The body fields are copied. A truthy date is normalised, an unparsable one rejects, and a falsy one becomes the schema default `now`. `isJournal` is kept as sent. |
| NotesRoute.Create | routes/notes.js:61-74 | On success the note is appended under a fresh id and is then found by Get. On rejection nothing changes. Tags and other users' notes never change. |
| NotesRoute.Update | routes/notes.js:154-163 | Zero matches gives NotFound with the store unchanged. Otherwise only that note is rewritten by the patch and the updated note is returned. Setting `isJournal` moves it into or out of the journal list. |
| NotesRoute.Delete | routes/notes.js:201-205 | Removes exactly the caller's note with that id, journal or not. Nothing else is removed, and afterwards Get (and so a second delete) gives NotFound. |
| JournalsRoute.List | routes/journals.js:29-32 | The list holds exactly the caller's notes whose `isJournal` is true. |
| JournalsRoute.Get | routes/journals.js:109-113 | The result is found exactly when the note has that id, the caller's owner and `isJournal == true`. A plain note, even an owned one, is NotFound. |
| JournalsRoute.Build | routes/journals.js:61-71 | Always a journal (`isJournal == Some(true)`) owned by the caller, whatever the body says. `isPinned` is the body's boolean or else false. A falsy date becomes `now` in the handler. |
| JournalsRoute.CreatePathsAgree | routes/journals.js:67-70 | The two create paths default a missing date in different places but store the same date. They differ only in the two flags. |
| JournalsRoute.Create | routes/journals.js:61-74 | On success the journal is appended under a fresh id and is then listed and found through the journal path. On rejection nothing changes. |
| JournalsRoute.PatchOf | routes/journals.js:155-158 | The journal update document is the note update document without `isJournal`. |
| JournalsRoute.Update | routes/journals.js:154-163 | Only a journal of the caller is rewritten, and it stays a journal of the same owner. A plain note with that id gives NotFound and is left unchanged. |
| JournalsRoute.Delete | routes/journals.js:201-205 | Removes only a journal of the caller, and every other note is kept. A plain note with that id gives NotFound. Afterwards the id is not found. |
| TagsRoute.List | routes/tags.js:29-32 | The list holds exactly the caller's tags. |
| TagsRoute.Create | routes/tags.js:61-66 | Stores the body's name and colour under a fresh id, with the owner forced to the caller. Duplicate names are accepted, and the notes never change. |
| TagsRoute.Update | routes/tags.js:107-116 | An empty name is rejected first. Otherwise it is NotFound exactly when no tag of the caller has the id, and then nothing changes. On success only the supplied fields change. |
| TagsRoute.Delete | routes/tags.js:154-163 | No match gives NotFound with tags and notes unchanged. Otherwise the tag is removed and every caller note loses the id. Nothing else in any note changes, and other users' notes and tags are unchanged. |
| Scenarios.DeleteTagUntagsNote | routes/tags.js:154-163 | Create a tag, create a note tagged with it, then delete the tag: the note read back has an empty `tagIds`. |
| Scenarios.OwnerIsolation | routes/notes.js:109-111 | Another user cannot list, get, update or delete a user's note, and the owner still reads it unchanged. |
| Scenarios.DeleteTwice | routes/notes.js:201-205 | The first delete succeeds. The note is then not found, and the second delete fails. |
| Scenarios.JournalView | routes/journals.js:109-111 | A plain note is invisible to every journal handler until the note path sets `isJournal`; then the journal path finds it. |
| Scenarios.TagColorUpdate | routes/tags.js:107-116 | A colour-only update keeps the name, and a second tag with the same name is accepted. |

## Left out

- NotesRoute.Update: assumes the installed Mongoose drops `undefined` keys from the update document, so the update is partial. If it instead wrote them as nulls, omitted fields would be cleared. The Mongoose version is not part of this model.
- JournalsRoute.Update: the same partial-update assumption as NotesRoute.Update.
- TagsRoute.Update: assumes the update validators run before the query, so an empty name is rejected even when no tag matches.
- Authentication (middleware/auth.js) is not part of this model. Token checking belongs to the identity provider's library, so the caller's id is a trusted parameter, and the 401 answers are not modelled.
- server.js is not part of this model. It holds bootstrap code and an older unauthenticated copy of the routes with different outcomes.
- routes/users.js, services/userService.js and config/swagger.js are not part of this model. They pass calls through to the identity provider or hold API documentation.
- The clock and date parsing are parameters (`now`, `normalize`), not computed. The date stored by an update is the raw body value, as in the code; no normalisation happens there.
- ObjectId generation and casting are not modelled: ids are naturals from a counter. A malformed id string, which Mongoose would reject with a cast error, is not modelled.
- Body values of other JSON types are not modelled: a number or string where a boolean is expected, `null`, and Mongoose's casting of them. So the journal path's `typeof isPinned === 'boolean'` check reduces to "present, else false".
- Response bodies are not modelled: the error message text ("Note not found", "Journal entry not found", "Tag not found"), the status codes and `{ success: true }`.
- The tag delete and its cascade are not atomic in the code. The model runs the two steps one after the other and claims nothing about interleaved requests.
- Query order is the store's sequence order. MongoDB's natural order is not formally guaranteed.
