# express-cred record store, modelled in Dafny

The server keeps every submitted form as a record in one process-wide list,
`storage`. It is loaded from `data.json` at start-up and rewritten to that file
after every change. Each client session also keeps its own list of submissions,
`submittedData`, and the id it last edited, `lastEdited`. The route handlers
create, look up, delete and shallow-merge records in that list. This project
models the list, the session bookkeeping and the five handlers that touch them,
one handler per atomic step.

- `records.dfy`, module `Records`. A record is a `map<string, string>`. The file
  holds the meaning of each list operation the handlers use, as functions:
  - `FirstMatch` is `findIndex` by `id`, returning -1 when nothing matches.
  - `Without` is `splice(i, 1)`.
  - `WithId` stamps the generated id.
  - `Merge` is the object spread `{...old, ...body}`.
- `store.dfy`, module `Store`. It holds the mutable state and the handlers:
  - class `Store` wraps the `storage` list. Its lookups are loops proved against
    `FirstMatch`, and its mutators are `push`, `splice` and indexed assignment.
  - class `Session` holds one client's `submittedData` and `lastEdited`.
  - the load fallback, the table selection, and the handlers `HandlePost`,
    `HandleTable`, `HandleDelete`, `HandleEdit` and `HandleUpdate`.
- `store_lemmas.dfy`, module `StoreLemmas`. These lemmas relate several
  operations:
  - a create with a fresh id is found by a lookup of that id;
  - a delete in a list with unique ids leaves that id absent;
  - an update keeps the record findable unless the body renames it;
  - which operations keep ids unique, and concrete cases where they do not.

Two inputs are parameters rather than modelled I/O:
- the generated id (`uuidv4()`) is the parameter `newId`;
- the outcome of the asynchronous `fs.writeFile` is the boolean `writeOk`.

The handlers' contracts show that the write outcome only chooses the response.
The change to the list is kept whether the write succeeds or fails. The
start-up read and parse of `data.json` is the datatype `LoadOutcome`.

Behaviour of the code that the model keeps:
- `/post` redirects to `/home` on success (back.js:85).
- An update does not protect `id`. A body that carries `id` overwrites the
  stored one (back.js:149). `UpdateRenamesRecord` and `UpdateCanDuplicateIds`
  show the consequences.
- Nothing checks that ids are unique. Uniqueness after creates rests on the
  generated ids being fresh. The lemmas take that as a precondition.
- A delete removes only the first record with the id. With duplicate ids, a
  later lookup finds the next record with that id, now one place earlier
  (`DuplicateSurvivesDelete`).

## Model

| member | source | states |
|---|---|---|
| `Records.HasId` | back.js:102 | the scans' `item.id === id` test: a record without an `id` field never matches |
| `Records.WithId` | back.js:59-60 | the stamped body carries the new id, has exactly the body's keys plus `id`, and keeps every other field's value |
| `Records.Merge` | back.js:149 | shallow merge: the keys are the union, the body's value wins on every key it has (including `id`), and the other keys keep their old values |
| `Records.FirstMatch` | back.js:102 | `findIndex` by id: -1 exactly when no record carries the id; otherwise the index of a record carrying it with none before it |
| `Records.Without` | back.js:110 | `splice(i, 1)`: one element shorter, elements before `i` unchanged, those after shifted down by one keeping their order, and the multiset loses exactly the removed record |
| `Store.InitialStorage` | back.js:33-42 | start-up contents: the parsed value when it is an array; empty when the read or parse fails or the value is not an array |
| `Store.Submitted` | back.js:92 | an absent session list reads as empty, a present one as itself |
| `Store.TableRows` | back.js:92-93 | the table shows the session's submissions when non-empty, otherwise the whole store |
| `Store.Store.Load` | back.js:33-42 | the store starts from the load fallback |
| `Store.Store.FindIndex` | back.js:102 | the linear scan returns -1 exactly when no record carries the id, otherwise the first index that does, and agrees with `FirstMatch` |
| `Store.Store.Find` | back.js:131 | `find` returns nothing exactly when the id is absent, otherwise the record at the first matching index |
| `Store.Store.Push` | back.js:63 | `push` appends one record at the end |
| `Store.Store.Splice` | back.js:110 | `splice` leaves the list equal to `Without` at that index |
| `Store.Store.Put` | back.js:149 | indexed assignment replaces exactly one position |
| `Store.Session.constructor` | back.js:66 | a fresh session has no submission list and no last-edited id |
| `Store.Session.RecordSubmission` | back.js:66-69 | the session list is created empty when absent and the record is appended; `lastEdited` is untouched |
| `Store.Session.SetLastEdited` | back.js:129 | `lastEdited` becomes the id; the submissions are untouched |
| `Store.HandlePost` | back.js:55-88 | the store gains exactly the stamped body at its end and the session list gains the same record; the change stays whatever the write outcome; the response is a redirect to `/home` (status 302), or 500 when the write fails |
| `Store.HandleTable` | back.js:91-94 | renders the session's submissions when non-empty, otherwise the whole store |
| `Store.HandleDelete` | back.js:97-121 | absent id: 404 and the store is unchanged; present id: exactly the first match is removed, kept on a failed write, and the response is 200 or 500 by the write outcome (404 when absent); the session is not touched |
| `Store.HandleEdit` | back.js:124-138 | `lastEdited` becomes the id whether or not it is found; renders the first matching record or answers 404; the store is not changed |
| `Store.HandleUpdate` | back.js:141-163 | `lastEdited` becomes the id either way; absent id: 404 and the store is unchanged; present id: only the first match changes, to its merge with the body, kept on a failed write, and the response is a redirect to `/table` (status 302) or 500 |
| `StoreLemmas.Creates` | back.js:60-63 | a run of creates keeps the old records as a prefix and appends one stamped body per id, in order |
| `StoreLemmas.CreatedIsFound` | back.js:60-63 | after a create with an id no record carries, a lookup of that id finds the new last record |
| `StoreLemmas.CreateKeepsIdsUnique` | back.js:60-63 | a create with a fresh id keeps ids unique |
| `StoreLemmas.SequentialCreatesKeepIdsUnique` | back.js:60-63 | any run of creates with distinct fresh ids keeps ids unique, and each id is found at its own new position |
| `StoreLemmas.OnlyMatchIsFirst` | back.js:102 | in a list with unique ids, no record other than the first match carries the id |
| `StoreLemmas.DeleteRemovesId` | back.js:102-110 | deleting a present id from a list with unique ids leaves the id absent and the ids unique |
| `StoreLemmas.DuplicateSurvivesDelete` | back.js:102-110 | when a second record at index `j` carries the deleted id, a lookup after the delete finds it at `j - 1` |
| `StoreLemmas.UpdatedStaysFound` | back.js:146-149 | an update whose body has no `id`, or the same `id`, leaves the record at the index a lookup finds |
| `StoreLemmas.UpdateKeepsIdsUnique` | back.js:146-149 | an update whose body has no `id`, or repeats the record's own `id`, keeps ids unique |
| `StoreLemmas.UpdateRenamesRecord` | back.js:146-149 | in a list with unique ids, an update whose body carries another `id` makes the requested id absent and gives the record the body's id |
| `StoreLemmas.UpdateCanDuplicateIds` | back.js:149 | an update can give two records the same id, because the body's `id` is not protected |
| `StoreLemmas.MergeKeepsUnsentFields` | back.js:149 | merge, not replace: `{id, a: 0, b: 2}` updated with `{a: 1}` is `{id, a: 1, b: 2}` |
| `StoreLemmas.TableShowsOwnSubmission` | back.js:92-93 | after a submission in this session, the table shows the session's list, which ends with the new record |

## Left out

- Express setup, middleware, routing and `app.listen` (back.js:7-22, 182-184): framework plumbing.
- Reading `home.html` and the `/home` route (back.js:24-30, 46-52): static page and cookie display.
- File I/O: the read of `data.json` is the `LoadOutcome` value, and each `fs.writeFile` is the `writeOk` outcome.
- `JSON.parse`/`JSON.stringify`: library serialisation. No serialise/reload round trip is stated, because the code has no serialiser of its own.
- `uuidv4()`: a random source, taken as the parameter `newId`. Its freshness appears only as a lemma precondition.
- Cookies: the `res.cookie` call in `/post`, the `lastSubmissionTime` read and `/clear-cookies` (back.js:47-51, 73-76, 176-179): HTTP header plumbing.
- EJS rendering: a render is the `RenderTable`/`RenderEdit` response carrying its data.
- `/clear-session` (back.js:166-173): it delegates to the session library's `destroy`.
- Logging with `console.log`/`console.error`.
- Concurrency: each handler is one atomic step. The model does not cover asynchronous callback ordering or requests racing on the shared list.
- Aliasing: `/post` pushes the same object into `storage` and the session list. Records are values here, so the two copies are equal when pushed. A later update does not reach the session copy in either the model or the code, because the code replaces the store entry with a new object (back.js:149).
- Session expiry: the session cookie's `maxAge` (back.js:19) is middleware configuration. An expired session is a fresh `Session`, whose table falls back to the whole store.
- Request bodies with non-string values, such as nested objects from the URL-encoded parser: records are string-to-string maps.
- A `data.json` array whose elements are not objects: the parsed array is taken to hold records.
