# Notes app: a Dafny model of its note rules

The application stores short text notes. It has a collection endpoint (`GET` lists every
note, `POST` creates one), a Note schema that trims and requires the title, defaults the
content and stamps timestamps, a home page that filters, sorts and deletes notes, and a form
that creates a note. This project models those four parts and proves what they promise.

- `wrappers.dfy` (`Wrappers`): `Option` for JSON fields that may be absent, `Result` for a
  validation outcome.
- `text.dfy` (`Text`): ASCII versions of `trim`, `toLowerCase` and `includes`, each tied to a
  definition by position.
- `seqs.dfy` (`Seqs`): `Array.prototype.filter` as `Keep`, with the subsequence relation it
  establishes.
- `note.dfy` (`NoteSchema`): the `Note` record and `Normalise`, the schema as one total
  function from raw input to a note or the message "Title is required".
- `notes_route.dfy` (`NotesRoute`): the endpoint's guard and content default as functions, and
  `NoteStore`, a class holding the collection as a sequence, with `List` (GET) and `Create`
  (POST). The store keeps an invariant: every note is well-formed and identifiers are distinct.
- `home_page.dfy` (`HomeView`): the search predicate, the filter, the in-place sort of an array,
  and `HomePage`, a class holding the page state (notes, loading, search, sort order).
- `new_note_page.dfy` (`NewNoteForm`): `NewNotePage`, a class holding the form state (title,
  content, error, loading, route), with submit and cancel transitions.
- `flows.dfy` (`Flows`): how the pages and the endpoint fit together.

Inputs stand in for everything outside the code. The database is a sequence field. Each
request outcome and each `confirm()` answer is a boolean parameter. The clock is an integer
parameter. A document identifier is a natural number taken from a counter in the store.

Some choices in the model:

- POST connects to the database before it reads the body, so a connection failure gives 500
  even for a bad title. The model keeps that order: `connectFails` is checked first, then a
  body that is not JSON (`request == None`), then the title guard, then `writeFails`.
- The route passes `content || ""` to the schema, so the schema's own `""` default is never
  used on this path. Both are modelled: `ContentOrEmpty` and `Normalise`.
- The schema's validation failure would also become a 500 in the route's catch. The lemma
  `GuardImpliesValid` proves it cannot happen after the route's guard has passed.
- `handleSubmit` is split at its `await`. `Submit` covers the code up to sending the request.
  `Settle` covers what runs after the request completes. This way `loading` is observable
  while the request is in flight.
- The page's sort is `Array.prototype.sort` on the freshly filtered array. It is modelled as an
  insertion sort on a Dafny `array`. Only the outcome is specified: ordered by `createdAt` and
  a permutation of its input.

## Model

| member | source | states |
|---|---|---|
| `Text.SkipSpace` | src/models/Note.js:8 | the position reached is the first non-whitespace character at or after the start, or the end; everything skipped is whitespace |
| `Text.SkipSpaceBack` | src/models/Note.js:8 | the position reached ends the range once its trailing whitespace is dropped; everything skipped is whitespace |
| `Text.Trim` | src/app/api/notes/route.js:21 | the result is no longer than the input and has no whitespace at either end |
| `Text.TrimIsSlice` | src/models/Note.js:8 | the trimmed title is the slice of the input from its first non-whitespace character, with only whitespace outside it |
| `Text.BlankIffAllSpace` | src/app/new/page.jsx:18 | a string is blank after trimming iff every character is whitespace |
| `Text.IsBlank` | src/app/new/page.jsx:18 | definition of `!s.trim()`; `Text.BlankIffAllSpace` proves it holds iff every character is whitespace |
| `Text.TrimmedIsFixed` | src/models/Note.js:8 | a string with no whitespace at its ends is unchanged by trimming |
| `Text.TrimIdempotent` | src/models/Note.js:8 | trimming twice gives the same result as trimming once |
| `Text.LowerChar` | src/app/page.jsx:56 | upper-case ASCII letters map to their lower-case letter; every other character is kept |
| `Text.Lower` | src/app/page.jsx:56-57 | same length, every character lowered on its own, no upper-case ASCII letter left |
| `Text.Contains` | src/app/page.jsx:56-57 | definition of `includes`, scanning start positions left to right; its meaning as "occurs at some position" is proved by `Text.ContainsAt` |
| `Text.ContainsAt` | src/app/page.jsx:56-57 | `includes` holds iff the searched text occurs at some position |
| `Text.ContainsEmpty` | src/app/page.jsx:56 | every string includes the empty string |
| `Seqs.Keep` | src/app/page.jsx:54-58 | `filter` keeps exactly the elements satisfying the predicate, with all their occurrences and none of the others |
| `Seqs.KeepIsSubsequence` | src/app/page.jsx:54 | the filtered sequence is a subsequence of its input, so the order is kept |
| `Seqs.KeepAll` | src/app/page.jsx:54 | filtering with a predicate every element satisfies returns the input unchanged |
| `Seqs.KeepIdempotent` | src/app/page.jsx:54 | a fact about `filter` itself: filtering twice with the same predicate equals filtering once |
| `NoteSchema.Normalise` | src/models/Note.js:3-16 | rejects with "Title is required" exactly when the title is absent or blank after trimming; otherwise the note is well-formed, its title is the trimmed input, its content the input or "" when absent, and both timestamps are the clock reading |
| `NoteSchema.NormaliseIdempotent` | src/models/Note.js:8 | feeding a normalised note's fields back into the schema yields the same note |
| `NotesRoute.ContentOrEmpty` | src/app/api/notes/route.js:27 | an absent content becomes ""; a present one, empty or not, is passed on unchanged |
| `NotesRoute.TitleMissing` | src/app/api/notes/route.js:21 | definition of the POST guard `!body.title \|\| body.title.trim() === ""`; `NotesRoute.TitleMissingIffBlank` proves it means absent or blank after trimming |
| `NotesRoute.TitleMissingIffBlank` | src/app/api/notes/route.js:21 | the guard rejects exactly an absent title or one that is blank after trimming, which covers the empty string |
| `NotesRoute.GuardImpliesValid` | src/app/api/notes/route.js:21-28 | once the guard passes, the schema accepts the document the route builds |
| `NotesRoute.AppendFresh` | src/app/api/notes/route.js:25 | appending a well-formed note with the next fresh identifier keeps the store invariant, and the new identifier is no existing note's |
| `NotesRoute.NoteStore.List` | src/app/api/notes/route.js:5-13 | 200 with exactly the stored notes in storage order, or 500 "Failed to fetch notes" when storage fails; the store is not modified |
| `NotesRoute.NoteStore.Create` | src/app/api/notes/route.js:16-34 | connection failure or unparsable body gives 500 "Failed to create note"; an absent or blank title gives 400 "Title is required"; a failed write gives 500; each of these leaves the store unchanged; otherwise 201 with a fresh note appended, whose title is trimmed, whose content is defaulted and whose timestamps equal the clock, and existing notes are untouched |
| `HomeView.Matches` | src/app/page.jsx:55-57 | definition of the filter callback (lower-cased search included in lower-cased title or content); `HomeView.FilterNotes` and `HomeView.HomePage.Render` state what filtering by it keeps |
| `HomeView.FilterNotes` | src/app/page.jsx:54-58 | a subsequence of the notes holding exactly those whose lower-cased title or content includes the lower-cased search, with all their occurrences; an empty search keeps every note |
| `HomeView.InOrder` | src/app/page.jsx:61-65 | definition of the comparator's order: larger `createdAt` first for "latest", smaller first otherwise; `HomeView.SortInPlace` proves the sorted array ordered by it |
| `HomeView.SortInPlace` | src/app/page.jsx:60-66 | the array ends sorted by `createdAt`, newest first or oldest first as asked, and holds the same notes as before |
| `HomeView.RemoveNote` | src/app/page.jsx:34 | removes exactly the notes with the given id, keeps every other note with all its occurrences, in order |
| `HomeView.RemoveAbsent` | src/app/page.jsx:34 | deleting an id no note carries leaves the list as it is |
| `HomeView.RemoveTwice` | src/app/page.jsx:34 | deleting the same id again removes nothing more |
| `HomeView.HomePage.constructor` | src/app/page.jsx:8-11 | no notes, loading, empty search, order "latest" |
| `HomeView.HomePage.FetchSettled` | src/app/page.jsx:14-26 | loading ends whether the fetch succeeded or not; on success the notes are the response's, on failure they are unchanged |
| `HomeView.HomePage.SetSearch` | src/app/page.jsx:130 | only the search text changes |
| `HomeView.HomePage.SetSortOrder` | src/app/page.jsx:139 | only the sort order changes |
| `HomeView.HomePage.Render` | src/app/page.jsx:40-66 | a spinner exactly while loading; otherwise the matching notes, as a permutation of the filtered list, ordered newest first for "latest" and oldest first for any other order; the page state is not changed |
| `HomeView.HomePage.Delete` | src/app/page.jsx:29-38 | a request is sent iff the user confirms; only a confirmed, successful delete changes the list, and then to the list without the notes with that id; search, order and loading are unchanged |
| `NewNoteForm.NewNotePage.constructor` | src/app/new/page.jsx:8-11 | empty title, content and error, not loading |
| `NewNoteForm.NewNotePage.SetTitle` | src/app/new/page.jsx:121 | only the title changes |
| `NewNoteForm.NewNotePage.SetContent` | src/app/new/page.jsx:145 | only the content changes |
| `NewNoteForm.NewNotePage.SubmitEnabled` | src/app/new/page.jsx:164 | definition of the button's enablement, the negation of `loading \|\| !title.trim()`; `Flows.EnabledSubmitIsAccepted` proves an enabled submit passes the endpoint's guard and the schema |
| `NewNoteForm.NewNotePage.Submit` | src/app/new/page.jsx:15-27 | a blank title sets "Title is required", sends nothing and leaves loading as it was; otherwise the error is cleared, loading starts, and the request carries the title and content exactly as typed, untrimmed |
| `NewNoteForm.NewNotePage.Settle` | src/app/new/page.jsx:28-34 | on success the route becomes "/"; on failure the error becomes "Failed to create note. Please try again." and the route is kept; loading ends either way |
| `NewNoteForm.NewNotePage.HasUnsavedText` | src/app/new/page.jsx:38 | definition of the cancel test `title.trim() \|\| content.trim()`; `NewNoteForm.NewNotePage.Cancel` states that the user is asked exactly when it holds |
| `NewNoteForm.NewNotePage.Cancel` | src/app/new/page.jsx:37-47 | the user is asked iff the title or content is not blank; the page leaves for "/" unless the user was asked and declined, and nothing else changes |
| `Flows.FormAndRouteAgree` | src/app/new/page.jsx:18 | the form's blank check and the endpoint's guard agree on every title; a title the form sends is accepted and stored trimmed, with the content exactly as typed |
| `Flows.EnabledSubmitIsAccepted` | src/app/new/page.jsx:164 | while the submit button is enabled, the title passes the endpoint's guard and the schema |
| `Flows.LoadHome` | src/app/page.jsx:14-26 | after the initial load the page shows exactly the stored notes, or keeps its list when the fetch fails; loading ends either way |
| `Flows.SubmitToStore` | src/app/new/page.jsx:15-35 | a form submission never gets a 400; with a non-blank title and no failure the endpoint answers 201, the store gains exactly that one note (trimmed title, typed content, both timestamps from the clock) and the form goes home; on a failure the store is unchanged and the error banner is shown |

## Left out

- The single-note endpoint (get, update, delete by id) and the edit page with its debounced
  autosave are not part of this model. The home page's delete request is only a success flag.
- The test-database endpoint: it only checks that a connection can be made.
- The database driver, the ORM's internals and connection pooling. The collection is a
  sequence, and an identifier is a fresh number from a counter.
- HTTP, `axios` and React rendering, JSX markup, styling and animations. Request outcomes and
  `confirm()` answers are boolean inputs. The error messages the pages log to the console are
  not modelled.
- Unicode: `trim` removes only the six ASCII whitespace characters, and `toLowerCase` changes
  only `A`-`Z`. `Date` parsing is not modelled; `createdAt` is an integer.
- JSON values that are not strings (a numeric title, a `null` body) are not modelled. Titles
  and contents are optional strings.
- `HomeView.SortInPlace`: the order of notes with equal `createdAt` is left unspecified. The
  engine's sort is stable, but the application does not rely on that.
- The form event's `preventDefault` call is not modelled.
