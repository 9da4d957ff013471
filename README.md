# Attendance tracker core, modelled in Dafny

The tracker keeps a list of subjects, each with a weekly schedule and two
counters (`totalClasses`, `attendedClasses`), and an append-only log of
attendance entries with free-text notes. This project models its behaviour
once the remote document store is replaced by an in-memory value:

- `Types.dfy`: the records (`Subject`, `ClassSchedule`, `ClassEntry`) and the
  counter invariant `0 <= attendedClasses <= totalClasses`.
- `Store.dfy`: the two collections as a value `Db` (a map from subject id to
  subject document, and a sequence of entries) with one function per store
  primitive: insert, partial update (which fails on a missing id), delete,
  append an entry, query entries by subject, and a method that lists the whole
  `subjects` collection in no fixed order. `LogConsistent` states that every
  subject's counters agree with its log.
- `App.dfy`: the counter rule of an attendance mark and the state controller
  as a class whose fields are the app's state (`subjects`, `selectedSubject`,
  `showAddSubject`, `editingSubject`, `loading`, `viewingHistory`) plus the
  store. Every handler takes the success or failure of each store call as a
  boolean, and keeps the controller invariant `Valid()` (all counters in the
  store, in the list and in the selection satisfy the counter invariant).
  Lemmas show which operations keep counters and log in agreement, and that the
  two-write attendance mark breaks the agreement when its second write fails or
  its snapshot is stale.
- `AddSubjectForm.dfy`: the slot-list editing as a class over a `seq` field,
  the blank-name guard (ECMAScript `trim` white space, written out), and the
  reset after submit.
- `SubjectCard.dfy`: the percentage and low-attendance flag over `real`, and the
  card's toggle and quick buttons.
- `AttendanceHistory.dfy`: the newest-first sort (sorted, a permutation, and
  stable), the rows, and the empty-history row.
- `AttendanceForm.dfy`: the notes/loading state machine of the inline form.

External inputs are parameters: store outcomes (`reachable`, `insertOk`,
`fetchOk`, ...), store-assigned ids (`newId`, `entryId`), the clock (`date`,
`now`, `createdAt`) and the user's answer to the delete confirmation
(`confirmed`). The re-fetch each handler starts without waiting is modelled as
completing before the handler returns.

The add-subject form's submit handler checks only that the name is not blank.
Before it runs, the browser's validation of the `required` inputs blocks the
submit while the name or any start or end time is empty; `Form.RequestSubmit`
models the two together. No code checks that the schedule is non-empty:
`Form.Valid()` keeps at least one slot. A new subject, with 0 of 0 classes, is
flagged as low attendance because its percentage, 0, is below 75.

## Model

| member | source | states |
|---|---|---|
| `Store.Apply` | src/App.tsx:91-96 | a partial update writes exactly the fields it names: name and schedule, or the two counters; everything else in the document is kept |
| `Store.AddDoc` | src/App.tsx:46-51 | inserting a document adds exactly the new id with that document and leaves every other subject and the log as they were |
| `Store.UpdateDoc` | src/App.tsx:64-65 | an update fails exactly when the id is missing; otherwise only that document changes, by `Apply`, and the log is untouched |
| `Store.DeleteDoc` | src/App.tsx:111 | deleting removes exactly that id, keeps every other subject and every attendance entry, and is a no-op on a missing id |
| `Store.AddEntry` | src/App.tsx:81-87 | recording an entry appends exactly it to the log, earlier entries and subjects unchanged |
| `Store.EntriesFor` | src/App.tsx:122-130 | the history query returns only entries of the log with that subject id, and every such entry |
| `Store.EntriesForMultiset` | src/App.tsx:122-130 | the query holds every entry with that subject id exactly as often as the log does, and no entry of another subject |
| `Store.ListSubjects` | src/App.tsx:30-34 | fetching lists every stored subject exactly once, in some order, each carrying its document's id and fields |
| `App.CounterPatch` | src/App.tsx:91-96 | the counter write sets total to snapshot total + 1, and attended to snapshot attended + 1 exactly when present (unchanged when absent); it keeps `0 <= attended <= total` |
| `App.RecordKeepsLogConsistent` | src/App.tsx:79-96 | when both writes succeed from a snapshot that matches the store, every subject's counters still equal its entry count and presence count |
| `App.PartialRecordBreaksLog` | src/App.tsx:81-104 | when the entry is written but the counter update fails, that subject's counters no longer match its log (no rollback) |
| `App.StaleSnapshotLosesIncrement` | src/App.tsx:90-96 | a mark computed from a snapshot whose total lags the store writes a total below the log count: an earlier increment is lost |
| `App.AddKeepsLogConsistent` | src/App.tsx:46-51 | a new subject with counters 0 under an id never used before keeps counters and log in agreement |
| `App.EditKeepsLogConsistent` | src/App.tsx:62-65 | editing name and schedule always succeeds on an existing id and keeps counters and log in agreement |
| `App.MathScenario` | src/App.tsx:44-96 | a new subject starts at 0/0; a present mark gives 1/1 with one logged entry; an absent mark then gives 2/1 |
| `App.Controller.constructor` | src/App.tsx:14-22 | the controller starts with no subjects, nothing selected, no forms open, and `loading` true |
| `App.Controller.FetchSubjects` | src/App.tsx:28-42 | on success the list is a listing of the store, on failure it is kept; `loading` is false afterwards either way; nothing else changes |
| `App.Controller.AddSubject` | src/App.tsx:44-60 | on success the store gains the subject with both counters 0, the add form closes and the list is re-fetched; on failure nothing changes; selection state is never touched |
| `App.Controller.EditSubject` | src/App.tsx:62-74 | on success the store becomes `UpdateDoc` of name and schedule (so only those two fields of that subject change), the edit form closes and the list is re-fetched; an unreachable store or missing id changes nothing; counters and their agreement with the log are kept |
| `App.Controller.SaveEdit` | src/App.tsx:64-69 | the successful path of an edit: the write, closing the edit form and the re-fetch, with selection, add form and history view untouched |
| `App.Controller.AttendanceSubmit` | src/App.tsx:76-105 | with nothing selected, or a failed entry insert, nothing changes; otherwise exactly one entry with the selected id, the argument and the notes is appended; if the counter write then succeeds the counters follow `CounterPatch` and the selection clears, else the entry stays and counters and selection are kept |
| `App.Controller.WriteCounters` | src/App.tsx:89-100 | the second write of a mark: on success the store is `UpdateDoc` of the snapshot's counters, the selection is cleared and the list re-fetched; on failure nothing changes |
| `App.Controller.DeleteSubject` | src/App.tsx:107-118 | an unconfirmed or failed delete changes nothing; a confirmed one removes only that subject, keeps its entries, and leaves the selection state alone |
| `App.Controller.ViewHistory` | src/App.tsx:120-137 | on success the history view holds the subject and exactly its entries; on failure it is kept; nothing else changes |
| `App.Controller.SetShowAddSubject` | src/App.tsx:154 | the header button opens the add form and its close action hides it |
| `App.Controller.SetSelectedSubject` | src/App.tsx:175-183 | a card's attendance intent selects a listed subject, cancel clears it; the counter invariant is kept |
| `App.Controller.SetEditingSubject` | src/App.tsx:181-202 | a card's edit intent opens the edit form on its subject, closing it clears it |
| `App.Controller.CloseHistory` | src/App.tsx:210 | closing the history view clears it |
| `AddSubjectForm.WithField` | src/components/AddSubjectForm.tsx:29 | replacing one field of a slot sets that field and keeps the other two |
| `AddSubjectForm.WithoutIndex` | src/components/AddSubjectForm.tsx:24 | filtering out position i leaves the slots before i and after i in order; an out-of-range i removes nothing |
| `AddSubjectForm.WithoutIndexPermutes` | src/components/AddSubjectForm.tsx:24 | the removed slot and the remaining slots together are exactly the old list |
| `AddSubjectForm.IsBlank` | src/components/AddSubjectForm.tsx:35 | the submit guard holds exactly when every character of the name is ECMAScript white space (including the empty name) |
| `AddSubjectForm.Form.constructor` | src/components/AddSubjectForm.tsx:14-17 | the form starts with an empty name and exactly one slot `{Monday, "", ""}` |
| `AddSubjectForm.Form.SetName` | src/components/AddSubjectForm.tsx:67 | typing replaces the name |
| `AddSubjectForm.Form.AddSchedule` | src/components/AddSubjectForm.tsx:19-21 | adding appends `{Monday, "", ""}`, length + 1, earlier slots unchanged |
| `AddSubjectForm.Form.RemoveSchedule` | src/components/AddSubjectForm.tsx:23-25 | removing drops exactly slot i (length - 1 for a valid i); offered only with more than one slot, so the list never becomes empty |
| `AddSubjectForm.Form.ScheduleChange` | src/components/AddSubjectForm.tsx:27-31 | a change alters only the named field of slot i; length and all other slots are unchanged |
| `AddSubjectForm.DefaultSlotBlocksSubmit` | src/components/AddSubjectForm.tsx:100-117 | a form holding the default slot, with its empty times, cannot be submitted, whatever the name |
| `AddSubjectForm.Form.RequestSubmit` | src/components/AddSubjectForm.tsx:59-117 | the submit button reaches the handler only when the name and every start and end time are non-empty; anything sent has them all filled in; then it behaves as `Submit` |
| `AddSubjectForm.Form.Submit` | src/components/AddSubjectForm.tsx:33-44 | a blank name sends nothing and changes nothing; otherwise name and slots are handed on, and a resolved submit resets the form to its initial state |
| `SubjectCard.Percentage` | src/components/SubjectCard.tsx:21 | 0 when there are no classes; otherwise percentage * total = 100 * attended; within [0, 100] when `0 <= attended <= total`, so the bar width is a valid percentage |
| `SubjectCard.IsLowAttendance` | src/components/SubjectCard.tsx:22 | low exactly when attended * 100 < 75 * total; with no classes it is low |
| `SubjectCard.BelowThreeQuarters` | src/components/SubjectCard.tsx:21-22 | the percentage is below 75 exactly when attended * 100 < 75 * total |
| `SubjectCard.ThreeQuartersIsNotLow` | src/components/SubjectCard.tsx:21-22 | 3 of 4 is exactly 75 and not low; 749 of 1000 (74.9) is low |
| `SubjectCard.Card.constructor` | src/components/SubjectCard.tsx:20 | a card starts with its quick buttons hidden |
| `SubjectCard.Card.ToggleAttendance` | src/components/SubjectCard.tsx:95 | "Mark Attendance" flips `showAttendance` |
| `SubjectCard.Card.Quick` | src/components/SubjectCard.tsx:101-122 | Present and Absent behave identically: the intent carries the card's subject and the buttons hide |
| `AttendanceHistory.SortNewestFirst` | src/components/AttendanceHistory.tsx:13 | the displayed entries are ordered by timestamp, non-increasing, and are a permutation of the input (same multiset, same length) |
| `AttendanceHistory.SortIsStable` | src/components/AttendanceHistory.tsx:13 | entries with equal timestamps keep their input order, as the standard stable sort does |
| `AttendanceHistory.StatusOf` | src/components/AttendanceHistory.tsx:61-71 | the status reads Present exactly when the entry is attended |
| `AttendanceHistory.NotesCell` | src/components/AttendanceHistory.tsx:74 | non-empty notes are shown as they are, empty notes as "-"; the cell is never blank |
| `AttendanceHistory.Rows` | src/components/AttendanceHistory.tsx:47-77 | one row per entry, in newest-first order |
| `AttendanceHistory.ShowsNoRecords` | src/components/AttendanceHistory.tsx:78-84 | the "No attendance records found" row appears exactly when there are no entries |
| `AttendanceForm.Form.constructor` | src/components/AttendanceForm.tsx:12-13 | the form starts with empty notes and not loading |
| `AttendanceForm.Form.SetNotes` | src/components/AttendanceForm.tsx:47 | typing replaces the notes |
| `AttendanceForm.Form.Press` | src/components/AttendanceForm.tsx:55-70 | Present submits attended = true and Absent attended = false, each with the current notes; possible only while not loading, and sets loading |
| `AttendanceForm.Form.Settle` | src/components/AttendanceForm.tsx:15-23 | loading is false afterwards whether the submit succeeded or failed; notes are cleared only on success |

## Left out

- The remote store itself (its network, permissions, quotas, and query engine): it is replaced by the `Db` value, and every call's success is an input.
- Store-assigned ids, `new Date().toISOString()` and `Date.now()`: they are parameters. `AddSubject` requires the new id to be unused, which the store guarantees.
- Rendering, layout, animation, toast notifications, `console.error`, and the `confirm` dialog (a boolean input).
- Date formatting with `format(..., 'PPP')` and the one-decimal display of the percentage (`toFixed(1)`).
- Concurrency: handlers in flight at the same time, and the lost update when two marks for one subject overlap. The model is sequential. `App.StaleSnapshotLosesIncrement` shows the same loss sequentially, after a failed re-fetch.
- The edit-subject form: its source is not part of this model; `EditSubject` takes the name and schedule it would submit.
- The store connection configuration: it has no behaviour.
- The card's history, edit and delete buttons only forward the card's subject (or its id) to the controller methods that take them.
- Which component is rendered (`loading`, the card versus the form for the selected id, which dialogs are open): only the state that decides it is modelled.
- SubjectCard.Percentage: uses exact real division instead of IEEE-754 doubles. With 0 classes JavaScript gives `NaN || 0`, that is 0, when attended is 0, but Infinity when attended is positive; the model gives 0 in both cases, and the second never arises under the counter invariant.
- Store.EntriesFor: returns entries in log order; the store promises no order for a query, and the history view sorts them anyway.
- AddSubjectForm.Form.ScheduleChange: requires an index inside the list, as the rendered controls pass; JavaScript would grow the array for an index at or past the end.
- The browser's validation beyond `required`: a time input's value is taken as the typed string, without checking that it is a well-formed time.
- AddSubjectForm.Form.Submit: `ok` is whether the submit callback resolves. The app's add handler catches its own errors, so with that callback the form always resets.
- AttendanceForm.Form.Settle: likewise, the app's attendance handler catches its own errors, so notes are always cleared when the form is used in the app.
- Counters and timestamps are unbounded integers; JavaScript numbers are exact only up to 2^53.
- App.Controller.SetSelectedSubject: requires the subject to be one of the listed ones, since only rendered cards raise the intent; that is what lets `Valid()` cover the selection.
