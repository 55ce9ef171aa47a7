# Item-lending tracker: list handlers in Dafny

The application has three pages. Each keeps an in-memory list and edits it through a modal form:

- the item page (`data-barang`) holds `Barang` records `{ id, name }`;
- the borrower page (`data-peminjam`) holds `User` records `{ id, name }`;
- the loan calendar page (`peminjaman`) holds loan events `{ id, title, start, end }`.

All the logic lives in the pages' save and delete handlers. With the React state taken away, each handler is a pure function from the current list and the form's contents to the next list. This project models those functions and proves what they promise.

Modules:

- `Options`: `Option<T>`. `None` stands for the pages' `null`, meaning "add mode" or "nothing pending".
- `Text`: JavaScript's `trim`, which strips the ECMAScript WhiteSpace and LineTerminator characters from both ends. `IsBlank` is `!s.trim()`.
- `Seqs`: order-preserving filtering (`Array.prototype.filter`). It is characterised independently as the longest subsequence whose elements all satisfy the predicate, and proved to be the only one.
- `NamedList`: the item page and the borrower page run the same handlers on the same record shape, so one model serves both.
  - `Save` rejects a blank name. In edit mode it renames every record carrying the edited id. In add mode it appends a record whose id is `max(ids, 0) + 1`.
  - `Delete` filters out the pending id.
  - `SaveSpec` and `DeleteSpec` describe the results without computing them. Two lemmas show that each description determines its result.
- `ItemPage` and `BorrowerPage`: the two pages' handlers and seed lists.
- `LoanEvents`: the calendar page's `handleSaveEvent` and `handleDeleteEventFromModal`. `IsEditing` is the truthiness test `if (editingEventId)`: a non-null, non-empty id. `Accepts` is the form check: neither the title nor the start is blank after trimming.

Numeric ids are natural numbers. Event ids stay strings. The event page checks `if (editingEventId)`, and an empty-string id is falsy there, so it behaves like "no event being edited". The id of an added event comes from the clock, so it is a parameter (`newId`).

The pages have no not-found errors, no overlap detection, no end-after-start check, no link between events and items or borrowers, and no delete guards:

- editing or deleting an unknown id silently leaves the list unchanged;
- an event's title is free text;
- an event's end is never checked.

## Model

| member | source | states |
|---|---|---|
| Text.Trim | src/app/data-barang/page.tsx:76 | The trimmed string is a contiguous slice of the input. Everything cut from either end is whitespace. A non-empty result starts and ends with a visible character. |
| Text.BlankIffAllSpace | src/app/data-barang/page.tsx:76 | The blank-name check `!name.trim()` fires exactly when every character of the name is whitespace. |
| Text.TrimIdempotent | src/app/data-barang/page.tsx:84 | Trimming an already trimmed name changes nothing. |
| Text.TrimmedNonBlank | src/app/data-barang/page.tsx:89 | A name that passes the check is stored as a non-empty string with visible first and last characters, and it would pass the check again. |
| Seqs.Filter | src/app/data-barang/page.tsx:103 | Every element `filter` keeps satisfies the predicate, and the kept elements appear in their original order (the result is a subsequence of the input). |
| Seqs.FilterMembers | src/app/data-barang/page.tsx:103 | The filtered list holds exactly the elements of the input that satisfy the predicate. |
| Seqs.FilterKeepsExactly | src/app/data-barang/page.tsx:103 | The filtered list is a longest order-preserving selection of passing elements. Any other list with that property equals it. |
| NamedList.MaxId | src/app/data-barang/page.tsx:88 | `Math.max(...ids, 0)` bounds every id from above, and it is either 0 or one of the ids. |
| NamedList.NextId | src/app/data-barang/page.tsx:88 | The new id is at least 1 and greater than every existing id, so no record has it. It is 1 on an empty list, and otherwise it is one more than an existing id or 1. |
| NamedList.Rename | src/app/data-barang/page.tsx:83-85 | The edit keeps the length. Records with the edited id get exactly the new name with their id kept. Every other record is identical. |
| NamedList.Remove | src/app/data-barang/page.tsx:103 | No survivor carries the deleted id. The survivors are exactly the records of the list with another id, in their original order. |
| NamedList.Save | src/app/data-barang/page.tsx:75-90 | A blank name leaves the list unchanged. Add mode appends one record (fresh max+1 id, trimmed name) after the untouched old list. Edit mode keeps length, order and every id, and gives the trimmed name only to matching records. Distinct ids stay distinct. |
| NamedList.Delete | src/app/data-barang/page.tsx:101-105 | With no pending id the list is unchanged. Otherwise the result is the longest order-preserving selection of records with another id. Distinct ids stay distinct. |
| NamedList.SaveSpecDeterminate | src/app/data-barang/page.tsx:75-90 | The description of saving has exactly one result per input, so `Save` is the only handler that meets it. |
| NamedList.DeleteSpecDeterminate | src/app/data-barang/page.tsx:101-105 | The description of deleting has exactly one result per input. |
| NamedList.RemoveKeepsUniqueIds | src/app/data-barang/page.tsx:103 | Filtering a list with distinct ids leaves a list with distinct ids. |
| NamedList.SequentialIds | src/app/data-barang/page.tsx:36-50 | A list whose ids run 1, 2, ... in order has distinct ids, and the next record added to it gets id length + 1. |
| NamedList.EditAbsentIsNoOp | src/app/data-barang/page.tsx:83-85 | Editing an id that no record carries leaves the list unchanged. |
| NamedList.EditIdempotent | src/app/data-barang/page.tsx:83-85 | Saving the same edit twice gives the same list as saving it once. |
| NamedList.DeleteAbsentIsNoOp | src/app/data-barang/page.tsx:103 | Deleting an id that no record carries leaves the list unchanged. |
| NamedList.DeleteIdempotent | src/app/data-barang/page.tsx:103 | Deleting the same id twice equals deleting it once. |
| NamedList.AddThenDelete | src/app/data-barang/page.tsx:88-103 | Adding a non-blank name and then deleting the id it received restores the original list. |
| ItemPage.SaveBarang | src/app/data-barang/page.tsx:75-92 | `handleSaveBarang` meets the save description and preserves distinct ids. |
| ItemPage.DeleteBarang | src/app/data-barang/page.tsx:101-107 | `handleDeleteBarang` meets the delete description and preserves distinct ids. |
| ItemPage.InitialIdsSequential | src/app/data-barang/page.tsx:36-50 | The seed items have ids 1 to 13 in order. |
| ItemPage.InitialBarangWellFormed | src/app/data-barang/page.tsx:36-50 | The seed items have distinct ids, and the first added item gets id 14. |
| BorrowerPage.SaveUser | src/app/data-peminjam/page.tsx:67-84 | `handleSaveUser` meets the save description: blank names are rejected, adds append a fresh max+1 id with the trimmed name, and edits rename only matching users. Distinct ids stay distinct. |
| BorrowerPage.DeleteUser | src/app/data-peminjam/page.tsx:93-99 | `handleDeleteUser` removes exactly the pending id and keeps the others in order. It is a no-op with nothing pending, and distinct ids stay distinct. |
| BorrowerPage.InitialIdsSequential | src/app/data-peminjam/page.tsx:36-42 | The seed users have ids 1 to 5 in order. |
| BorrowerPage.InitialUsersWellFormed | src/app/data-peminjam/page.tsx:36-42 | The seed users have distinct ids, and the first added user gets id 6. |
| LoanEvents.Update | src/app/peminjaman/page.tsx:83-87 | The edit keeps length and positions. Events with the edited id get exactly the new title, start and end with their id kept. Others are identical. |
| LoanEvents.Remove | src/app/peminjaman/page.tsx:100 | The result is the longest order-preserving selection of events with another id. No event with the id survives, and every other event does. |
| LoanEvents.SaveEvent | src/app/peminjaman/page.tsx:75-95 | A blank title or blank start leaves the list unchanged. Add mode appends `{newId, trimmed title, start, end}` after the untouched list. Edit mode keeps length, positions and ids, and replaces title (trimmed), start and end only on matching events. |
| LoanEvents.DeleteEvent | src/app/peminjaman/page.tsx:98-105 | With no event being edited (null or empty id) the list is unchanged. Otherwise exactly the events with that id are removed and the rest keep their order. |
| LoanEvents.AddRejectedIff | src/app/peminjaman/page.tsx:76-79 | In add mode a save leaves the list unchanged exactly when the title or the start is blank, whatever the end holds. |
| LoanEvents.EndNotValidated | src/app/peminjaman/page.tsx:76-91 | Once title and start pass, every end is accepted, including an empty end and one before the start. It is stored exactly as given: on the appended event in add mode, and on every matching event in edit mode. |
| LoanEvents.EndNotValidatedExample | src/app/peminjaman/page.tsx:76 | An example: an empty end and an end two hours before the start are both accepted and appended. |
| LoanEvents.InitialEventsWellFormed | src/app/peminjaman/page.tsx:34-39 | The four seed events carry non-empty, pairwise distinct ids. |
| LoanEvents.EmptyIdIsNotEditing | src/app/peminjaman/page.tsx:81 | An empty editing id is falsy: saving appends as in add mode, and deleting does nothing. |
| LoanEvents.EditAbsentIsNoOp | src/app/peminjaman/page.tsx:83-87 | Editing an id that no event carries leaves the list unchanged. |
| LoanEvents.EditIdempotent | src/app/peminjaman/page.tsx:83-87 | Saving the same edit twice is saving it once. |
| LoanEvents.DeleteIdempotent | src/app/peminjaman/page.tsx:100 | Deleting the edited event twice is deleting it once. |
| LoanEvents.AddThenDelete | src/app/peminjaman/page.tsx:90-100 | Adding an event under an unused non-empty id and then deleting that id restores the original list. |

## Left out

- React state, the modal and confirm-dialog flags, `alert` and `console.log`: these are UI side effects. Only the list each handler produces is modelled.
- The FullCalendar widget and its configuration (src/app/peminjaman/page.tsx:129-149). The widget reads `initialEvents` once, so later list changes are not redrawn; that is a rendering concern.
- `handleDateSelect`, `handleEventClick` and `handleOpenAddModal` only fill the form. The timezone shift and ISO formatting in `handleOpenAddModal` (src/app/peminjaman/page.tsx:109-110) depend on the JavaScript runtime's date behaviour.
- The `substring(0, 16)` applied to the start and end inputs' displayed values (src/app/peminjaman/page.tsx:211, src/app/peminjaman/page.tsx:223) only shapes what the inputs display. The handlers receive whatever string the form state holds, so `start` and `end` are plain string parameters here.
- LoanEvents.SaveEvent: the id of an added event is `String(Date.now())`, which depends on the clock. It is a parameter, and nothing is claimed about its freshness. Two adds in the same millisecond would share an id; `AddThenDelete` assumes an unused id.
- NamedList.NextId: ids are modelled as natural numbers. The decimal string form and `parseInt` of a non-numeric id (which yields NaN and poisons `Math.max`) are not modelled. The page computes with JavaScript doubles, so freshness holds there only while ids stay below 2^53. At 2^53, `max + 1` equals `max` and the new id collides with an existing one. From 1e21 on, `String` writes exponent notation, which `parseInt` reads back as a small number. The model's unbounded naturals do not have these limits. `Math.max(...ids, 0)` also passes every id as a separate argument. On a list longer than the engine's argument limit (65536 in JavaScriptCore, near 10^5 in V8) the call throws `RangeError`, the handler stops, and the list stays unchanged. The model's `NextId` and `Save` append anyway.
- NamedList.Save: in the page the ids are strings, and `if (editingBarangId)` would treat an empty string as add mode. The model's numeric ids always render as non-empty strings, so that case does not arise.
- JavaScript strings are sequences of UTF-16 code units, while a Dafny `string` is a sequence of Unicode scalar values, so a name containing a lone surrogate has no model. On every string the model can represent, `trim` and `===` behave the same as in the page, because every whitespace character `trim` strips lies in the Basic Multilingual Plane.
- An absent `end` on an event is modelled as the empty string, which is the value the form holds for it.
- Overlap detection, end-after-start checks, referential integrity between events and items or borrowers, not-found errors and delete guards do not exist in the pages, so there is nothing of them to model.
