# Focus Academy record store, in Dafny

Focus Academy is a small school-management web app. It keeps everything in
one `AppState` record in the browser:

- the signed-in user;
- the teachers, the weekly timetable, the captured whiteboard lessons and the homework;
- optional GitHub credentials used to back the record up to a private Gist.

Each screen reads that record and changes it only through the actions of the
`App` component. This project models those actions, the Gist backup and
restore, and the record-building and query logic of the screens, and proves
what they promise.

Modules, one per source file:

- `Types` (types.ts): the enumerations and records, the fixed lists `DAYS`,
  `CLASSES` and `PERIODS`, and the natural key of a timetable slot.
- `Store` (App.tsx): every action as a total function on `AppState`, with its
  frame condition ("only this collection changes"). The invariant
  `WellFormed` says three things: one slot per (day, class, period), periods
  1..5, and `yearEnded` set exactly for teachers who left. Lemmas show which
  actions keep it.
- `AppComponent` (App.tsx): the component's state cell as a class `App`.
  It has one method per action, and each method's new state is the `Store`
  function of the old one. `UpdateTimetable` does the copy-and-write-slot
  step by step.
- `Sync` (ReportsView.tsx): the decisions behind push and pull.
  - The backup document is the state without the credentials.
  - With no gist id a push POSTs and creates a gist; with one it PATCHes that
    gist. The returned id is stored only on the first push.
  - A pull restores every backed-up field and keeps the local credentials.
  - The Gist service is a map from gist id to files, and server answers are
    inputs.
- `Reports` (ReportsView.tsx): the archive filters and the sync panel, a class
  whose status (`idle`, `syncing`, `success`, `error`) and error text the two
  handlers update.
- `TimetableView`, `DailyEntry`, `TeachersView`, `HomeworkView`, `Dashboard`:
  the logic of the corresponding screens. `TeachersView` holds the faculty
  form as a class, because the source updates its fields step by step.
- `Wrappers` and `Lists` hold `Option` and the array operations the source
  uses (`filter`, `map`, `findIndex`, `find`, `slice`, `reverse`).

How the model reads the source:

- **JavaScript truthiness.** A token, gist id or `editingId` that is the
  empty string counts as missing (`IsSet`). An image `""` counts as no image.
- **Toggling a teacher twice.** This always restores `isActive`. It leaves
  `yearEnded` absent only for a teacher who started active. A teacher who
  started inactive ends inactive again, with `yearEnded` set to the year of
  the second toggle (`Store.ToggleTwice`). So the plain reading "toggling
  twice clears `yearEnded`" holds only for active teachers.
- **Pull and the session.** The backup holds `currentUser`, so a pull also
  replaces the signed-in user with the one that pushed.
- **The error text.** Nothing clears it. After a failed sync, a later
  successful push shows "success" with the old "Sync Failed" text still
  visible (`Reports.ErrorTextOutlivesSuccess`).
- **A pull that finds no backup file** changes nothing and leaves the status
  at `syncing`. Both buttons then stay disabled.
- **The fixed lists.** constants.ts is not part of this model. `DAYS` is taken
  as Monday..Friday, `PERIODS` as 1..5 and `CLASSES` in the order of the
  `SchoolClass` enumeration.

## Model

| member | source | states |
|---|---|---|
| Types.EnumerationsComplete | types.ts:2-17 | Gender has exactly Male, Female, Other; SchoolClass exactly the six sections; DayOfWeek exactly Monday..Friday; the string values tell members apart and no class is called "All" |
| Types.PeriodsAreOneToFive | types.ts:35 | a period the schedule holds is exactly a number in 1..5 |
| Store.Initial | App.tsx:32-38 | with nothing persisted: no user, four empty collections, no credentials |
| Store.UpdateState | App.tsx:55-57 | each field given in the update replaces the old one, every other field is kept, an empty update changes nothing |
| Store.SessionOpen | App.tsx:135-137 | the app shows past the login screen exactly when the user name is present and non-empty |
| Store.Login | App.tsx:47-49 | the user is recorded, nothing else changes, and the session is open exactly when the name is non-empty |
| Store.Logout | App.tsx:51-53 | the session is closed and nothing else changes |
| Store.AddTeacher | App.tsx:60-63 | exactly one teacher is appended, with the fresh id, `isActive` true and the draft's fields; earlier teachers and all other collections are unchanged |
| Store.UpdateTeacher | App.tsx:65-70 | each teacher whose id matches is replaced, every other one stays at its index; only `teachers` changes |
| Store.UpdateUnknownTeacher | App.tsx:65-70 | an update for an id no teacher has leaves the state unchanged |
| Store.Unassign | App.tsx:77 | same length, and each slot led by the teacher gets lead "" while every other slot is unchanged |
| Store.DeleteTeacher | App.tsx:72-79 | unconfirmed: nothing changes; confirmed: exactly the teachers with other ids remain, in their store order and with their multiplicities, the timetable is unassigned, lessons and homework are untouched |
| Store.DeleteTeacherCascade | App.tsx:72-79 | after a confirmed delete no teacher has the id, no slot refers to it, and every slot keeps its id, key, subject and times |
| Store.Toggled | App.tsx:84-91 | `isActive` flips, leaving records the given year and returning clears it, the record is status-consistent, and no other field changes |
| Store.ToggleTeacherStatus | App.tsx:81-95 | the teachers with the id are toggled and every other teacher and collection is unchanged |
| Store.ToggleTwice | App.tsx:81-95 | two toggles restore every `isActive`; `yearEnded` ends absent for a teacher who started active and equals the second year otherwise |
| Store.SlotIndex | App.tsx:99 | the index of the first slot with the key, or -1 exactly when none has it |
| Store.SlotAt | App.tsx:99 | the slot a key denotes: absent exactly when no slot has the key, otherwise a stored slot with that key |
| Store.Upsert | App.tsx:97-107 | a new key: the old slots stay as a prefix and the entry is appended; a known key: same length, the entry sits at the index of the first slot with that key and every other index (later slots with the same key included) keeps its slot |
| Store.UpdateTimetable | App.tsx:97-107 | only the timetable changes, and it is the upsert of the entry |
| Store.UpsertLookup | App.tsx:97-107 | seen by key the timetable is a map: the upserted key now denotes the entry and every other key what it did before |
| Store.UpsertIdempotent | App.tsx:97-107 | saving the same entry twice equals saving it once |
| Store.UpsertKeepsKeysUnique | App.tsx:97-107 | upsert keeps one slot per (day, class, period) |
| Lists.Map | App.tsx:68 | `map`: same length, each element transformed at its index |
| Lists.FirstIndex | App.tsx:99 | `findIndex`: the first index that passes, or -1 exactly when none does |
| Lists.Find | TimetableEntryView.tsx:20 | `find`: an element that passes, present exactly when one exists, and the first such in order |
| Lists.Take | Dashboard.tsx:52 | `slice(0, n)`: the first n elements, or all when fewer |
| Lists.Reverse | Dashboard.tsx:86 | `reverse`: same length, element k is the k-th from the end |
| Lists.Filter | App.tsx:122 | `filter` keeps every element that passes, as often as it occurs and in its original order, and nothing else |
| Store.RemoveSlot | App.tsx:112 | exactly the slots with other ids remain, in their store order and with their multiplicities |
| Store.ClearTimetableEntry | App.tsx:109-114 | exactly the slots with other ids remain, in their store order and with their multiplicities, and nothing else changes |
| Store.RemoveSlotKeepsKeysUnique | App.tsx:109-114 | clearing keeps one slot per key |
| Store.ClearUndoesInsert | App.tsx:97-114 | clearing, by its id, a slot just inserted under a new key and a new id gives back the state |
| Store.AddLesson | App.tsx:116-119 | exactly one lesson is appended with the fresh id and the draft's fields; nothing else changes |
| Store.DeleteLesson | App.tsx:121-123 | exactly the lessons with other ids remain, in their store order and with their multiplicities, and nothing else changes |
| Store.DeleteLessonUndoesAdd | App.tsx:116-123 | deleting a lesson just added under a fresh id gives back the state |
| Store.AddHomework | App.tsx:125-128 | exactly one record is appended with the fresh id and the draft's fields; nothing else changes |
| Store.DeleteHomework | App.tsx:130-133 | unconfirmed: nothing changes; confirmed: exactly the records with other ids remain, in their store order and with their multiplicities; only `homework` can change |
| Store.DeleteHomeworkUndoesAdd | App.tsx:125-133 | a confirmed delete of a record just added under a fresh id gives back the state |
| Store.AddTeacherKeepsWellFormed | App.tsx:60-63 | adding keeps the store well-formed exactly when the draft has no `yearEnded` |
| Store.UpdateTeacherKeepsWellFormed | App.tsx:65-70 | an update with a status-consistent teacher keeps the store well-formed |
| Store.ToggleKeepsWellFormed | App.tsx:81-95 | toggling keeps the store well-formed |
| Store.DeleteTeacherKeepsWellFormed | App.tsx:72-79 | deleting a teacher keeps the store well-formed |
| Store.UpdateTimetableKeepsWellFormed | App.tsx:97-107 | saving a slot with a period in 1..5 keeps the store well-formed |
| Store.ClearKeepsWellFormed | App.tsx:109-114 | clearing a slot keeps the store well-formed |
| AppComponent.App.constructor | App.tsx:29-39 | first start holds the initial state |
| AppComponent.App.Load | App.tsx:29-39 | a persisted document is taken as the state as it is, otherwise the initial state |
| AppComponent.App.Login | App.tsx:47-49 | the new state is the login of the old one |
| AppComponent.App.Logout | App.tsx:51-53 | the new state is the logout of the old one |
| AppComponent.App.UpdateState | App.tsx:55-57 | the new state is the old one with the updates applied |
| AppComponent.App.AddTeacher | App.tsx:60-63 | the new state is the old one with the teacher added |
| AppComponent.App.UpdateTeacher | App.tsx:65-70 | the new state is the old one with the teacher replaced |
| AppComponent.App.DeleteTeacher | App.tsx:72-79 | without confirmation nothing changes, with it the teacher is removed and unassigned |
| AppComponent.App.ToggleTeacherStatus | App.tsx:81-95 | the new state is the old one with the teacher toggled |
| AppComponent.App.UpdateTimetable | App.tsx:97-107 | writing the found slot of a copy, or appending, yields the upsert of the old timetable |
| AppComponent.App.ClearTimetableEntry | App.tsx:109-114 | the new state is the old one with the slot removed |
| AppComponent.App.AddLesson | App.tsx:116-119 | the new state is the old one with the lesson added |
| AppComponent.App.DeleteLesson | App.tsx:121-123 | the new state is the old one with the lesson removed |
| AppComponent.App.AddHomework | App.tsx:125-128 | the new state is the old one with the record added |
| AppComponent.App.DeleteHomework | App.tsx:130-133 | without confirmation nothing changes, with it the record is removed |
| Sync.ToBackup | ReportsView.tsx:73 | the backup keeps the user, teachers, timetable, lessons and homework of the state |
| Sync.BackupExcludesCredentials | ReportsView.tsx:73 | two states have the same backup exactly when they differ at most in token and gist id |
| Sync.PushRequest | ReportsView.tsx:66-85 | no request without a token; otherwise a private gist with the backup file, sent with the token, by POST to /gists without a gist id and by PATCH to /gists/{id} with one |
| Sync.PushResult | ReportsView.tsx:66-109 | not started exactly without a token; succeeds exactly on an accepted response; success stores the returned id only when none was known and changes nothing else; a failure carries the server's message, or the status text when it has none |
| Sync.CloudUpdates | ReportsView.tsx:130-134 | applied to any state, the update yields exactly the pulled document's fields with the given token and gist id |
| Sync.Restore | ReportsView.tsx:128-134 | restoring keeps the local token and gist id |
| Sync.PullResult | ReportsView.tsx:113-141 | not started exactly without token, gist id or confirmation; once started, an answer with the backup file succeeds with the state restored from it (local token and gist id kept), one without the file stalls, and it fails exactly on a thrown or non-ok answer, with "Could not find Gist" for the latter |
| Sync.RestoreBackup | ReportsView.tsx:126-134 | restoring the backup of a state gives that state with the local credentials |
| Sync.BackupOfRestore | ReportsView.tsx:126-134 | the backup of a restored state is the document restored |
| Sync.RemoteAfterPush | ReportsView.tsx:80-103 | after a push, the known gist (or, on a first push, the new one) holds the backup of the pushed state; no other gist is added or changed, and a patched gist keeps its other files |
| Sync.StateAfter | ReportsView.tsx:103-134 | only a succeeded handler changes the local state, to the state it produced |
| Sync.Fetch | ReportsView.tsx:121-124 | the gist service answers with the gist's files exactly when it holds the id, and a not-ok answer otherwise |
| Sync.PushThenPullConverges | ReportsView.tsx:73-134 | after device A pushes, device B pulling the gist A now stores gets exactly A's data with B's own credentials |
| Sync.SecondPushPatchesSameGist | ReportsView.tsx:80-103 | a first push POSTs; the next push PATCHes the gist whose id the first one stored |
| Sync.FailureLeavesStateAlone | ReportsView.tsx:97-141 | a failed push or pull, or a pull without gist id or confirmation, leaves the local state unchanged |
| Reports.ArchivedLessons | ReportsView.tsx:18-22 | the lessons of the selected date whose class matches, every class when "All" is selected, in their store order and with their multiplicities |
| Reports.HomeworkCount | ReportsView.tsx:24-28 | the number of homework records under the same filter: zero exactly when none matches |
| Reports.HomeworkCountAppend | ReportsView.tsx:24-28 | no homework counts zero, and an appended record adds one exactly when its date and class match; so the count is the number of matching records |
| Reports.OneClassCountsNoMore | ReportsView.tsx:24-28 | narrowing the selector from 'All' to one class never raises the count |
| Reports.StatusAfter | ReportsView.tsx:70-140 | a handler that did not start keeps the status; otherwise it is never idle, and it is error, success or syncing exactly when the handler failed, succeeded or stalled |
| Reports.MessageAfter | ReportsView.tsx:106-140 | a failure sets the error text to its message; anything else keeps the old text |
| Reports.StatusTransitions | ReportsView.tsx:66-141 | without a token, or for a pull without gist id or confirmation, the status is untouched; a push ends in success exactly when accepted and in error otherwise; a started pull ends in error on a thrown or non-ok answer, in success with the backup file, and stays syncing without it |
| Reports.ErrorTextOutlivesSuccess | ReportsView.tsx:104-109 | after a failure, a successful push shows success while the failure's text stays |
| Reports.SyncPanel.constructor | ReportsView.tsx:14-15 | the panel starts idle with no error text |
| Reports.SyncPanel.PushEnabled | ReportsView.tsx:243 | the push button is enabled in every status except syncing |
| Reports.SyncPanel.PullEnabled | ReportsView.tsx:251 | the pull button is enabled exactly when the push button is and a gist id is set |
| Reports.SyncPanel.HandleGithubSync | ReportsView.tsx:65-110 | callable only when the push button is enabled; sends the push request, leaves the state, status and error text as the push result says, and starts the reset timer on success |
| Reports.SyncPanel.ResetTimerFires | ReportsView.tsx:105 | the timer sets the status back to idle whatever it is, and keeps the error text |
| Reports.SyncPanel.HandlePullFromCloud | ReportsView.tsx:112-142 | callable only when the pull button is enabled; the state, status and error text become what the pull result says |
| TimetableView.ActiveTeachers | TimetableEntryView.tsx:17 | exactly the active teachers, in their store order and with their multiplicities |
| TimetableView.TeacherIds | TimetableEntryView.tsx:99 | one option value per teacher, its id, in order |
| TimetableView.TeacherIdsMembers | TimetableEntryView.tsx:99 | an id is an option exactly when some listed teacher carries it |
| TimetableView.LeadOptions | TimetableEntryView.tsx:93-100 | the lead choices are "" (Vacant) first, then exactly the ids of active teachers |
| TimetableView.GetEntry | TimetableEntryView.tsx:19-21 | the slot of the selected day, class and period, absent exactly when none matches, and equal to the slot the store's upsert addresses by key |
| TimetableView.SetField | TimetableEntryView.tsx:25-26 | the edited column takes the value; id, key and the other columns are kept |
| TimetableView.HandleSave | TimetableEntryView.tsx:23-38 | the entry has the selected key and the edited value; an existing slot keeps its id and other columns; a new one gets the fresh id and "", "", 08:00, 09:00 elsewhere |
| TimetableView.Shown | TimetableEntryView.tsx:87-116 | an input shows the stored value when non-empty, otherwise its default; it is blank only for a column whose default is blank |
| TimetableView.SaveThenShown | TimetableEntryView.tsx:84-118 | after saving, the period holds the saved entry and the edited input shows the value, or its default when empty |
| TimetableView.SaveKeepsOtherColumns | TimetableEntryView.tsx:84-118 | after saving, every other input of the period shows what it showed before |
| TimetableView.SaveKeepsOtherSlots | TimetableEntryView.tsx:23-38 | saving one period leaves every other day, class and period as it was |
| TimetableView.SlotActive | TimetableEntryView.tsx:130-135 | the badge is Pending exactly when the subject or the lead input shows blank |
| TimetableView.ActiveBadge | TimetableEntryView.tsx:130-136 | an empty subject or a vacant lead shows Pending; with a lead, Active exactly when a subject is shown |
| TimetableView.ClearEmptiesSlot | TimetableEntryView.tsx:121-124 | clearing by the slot's own id empties the period when keys are unique |
| TimetableView.DeletedLeadLeavesPending | TimetableEntryView.tsx:130 | after a teacher is deleted every period keeps its slot, with lead "" where they led, which then shows Pending |
| DailyEntry.DayName | DailyEntryView.tsx:18-19 | weekday numbers 1..5 give DAYS[0..4]; Sunday, Saturday and an invalid date give Monday |
| DailyEntry.DayNameCoversSchoolWeek | DailyEntryView.tsx:19 | every school day is the name of exactly one weekday number 1..5 |
| DailyEntry.TimetableForDay | DailyEntryView.tsx:21-23 | exactly the slots with that day and class, in their store order and with their multiplicities |
| DailyEntry.Schedule | DailyEntryView.tsx:135 | the period's slot found among the day's slots is the slot the timetable grid shows |
| DailyEntry.LoggedLesson | DailyEntryView.tsx:25-27 | the first lesson with that date, class and period, absent exactly when none has them |
| DailyEntry.CaptureBoard | DailyEntryView.tsx:75-98 | a lesson only with a file and a slot, copying subject and lead from the slot and class, date and period from the selection |
| DailyEntry.Capture | DailyEntryView.tsx:75-98 | no file or no slot changes nothing; otherwise exactly one lesson is appended, with the fresh id, the slot's subject and lead, the selected class, date and period, the image and the time; only lessons change |
| DailyEntry.CaptureThenLogged | DailyEntryView.tsx:87-95 | capturing a period with nothing logged makes the new lesson the one shown |
| DailyEntry.RecaptureKeepsFirst | DailyEntryView.tsx:177-182 | re-capturing a logged period appends a lesson but the period keeps showing the first one |
| DailyEntry.RemoveBoard | DailyEntryView.tsx:185-186 | nothing without confirmation or without a shown lesson; with both, the shown lesson leaves the store, which then is the store's own delete of that lesson's id (every lesson with another id stays, in order) |
| TeachersView.BlankForm | TeachersView.tsx:53-63 | empty strings, gender Male and the current year |
| TeachersView.FormOf | TeachersView.tsx:40-49 | the teacher's fields, with an absent email or specialization shown as "" |
| TeachersView.Merge | TeachersView.tsx:27-31 | id, status and `yearEnded` are kept, and the form of the result is the submitted form |
| TeachersView.SaveUnchangedEdit | TeachersView.tsx:40-49 | saving an edit without changes gives the teacher back, except that an absent email or specialization is stored as "" |
| TeachersView.DraftOf | TeachersView.tsx:33-35 | add mode sends the form fields only, so no `yearEnded` |
| TeachersView.SubmitEffect | TeachersView.tsx:24-38 | only teachers change; in edit mode with the teacher gone nothing changes |
| TeachersView.SubmitEditApplies | TeachersView.tsx:26-31 | in edit mode every teacher with the edited id shows the submitted form and takes the status and `yearEnded` of the edited teacher (the first with the id); no other teacher changes |
| TeachersView.SubmitAddApplies | TeachersView.tsx:32-35 | in add mode one active teacher with the submitted form is appended and the store stays well-formed |
| TeachersView.SubmitEditKeepsWellFormed | TeachersView.tsx:27-31 | an edit keeps the store well-formed |
| TeachersView.TeacherForm.constructor | TeachersView.tsx:14-22 | closed, not editing, blank form |
| TeachersView.TeacherForm.ResetForm | TeachersView.tsx:53-63 | blank form, not editing, open or closed as before |
| TeachersView.TeacherForm.ToggleOpen | TeachersView.tsx:74-78 | Cancel closes and resets an open form; the other label opens it untouched |
| TeachersView.TeacherForm.StartEdit | TeachersView.tsx:40-51 | editing that teacher, on its current values, form open |
| TeachersView.TeacherForm.Submit | TeachersView.tsx:24-38 | the store changes as the submit effect says, and the form is closed and blank in every case |
| HomeworkView.EmptyForm | HomeworkView.tsx:16-20 | subject, description and image are empty |
| HomeworkView.Attach | HomeworkView.tsx:66-75 | a chosen file replaces the image, no file changes nothing |
| HomeworkView.Detach | HomeworkView.tsx:161 | the image becomes "" and nothing else changes |
| HomeworkView.DraftOf | HomeworkView.tsx:77-83 | the form's subject, description and image with the selected date and class |
| HomeworkView.Submit | HomeworkView.tsx:77-86 | one record is appended with the form's fields, date, class and fresh id; the form is emptied |
| HomeworkView.ShowsImage | HomeworkView.tsx:208 | a card shows a photo exactly when its image is present and non-empty |
| HomeworkView.PhotoShownIffAttached | HomeworkView.tsx:208 | a submitted record shows a photo exactly when one was attached; attach-then-remove shows none |
| HomeworkView.HomeworkToday | HomeworkView.tsx:88 | exactly the records with the selected date and class, in their store order and with their multiplicities |
| HomeworkView.SubmittedIsListed | HomeworkView.tsx:77-88 | a submitted record ends the list of its date and class, and every other list stays the same |
| HomeworkView.DeletedIsUnlisted | HomeworkView.tsx:196 | a confirmed delete takes a listed record off the list, which gets shorter |
| Dashboard.ActiveCount | Dashboard.tsx:6 | the active teachers counted: zero exactly when none is active, all exactly when all are |
| Dashboard.ActiveCountAppend | Dashboard.tsx:6 | no teachers count zero, and an appended teacher adds one exactly when active; so the card is the number of active teachers |
| Dashboard.ActiveCountAfterAdd | Dashboard.tsx:6 | registering a teacher adds one to the count |
| Dashboard.LessonsToday | Dashboard.tsx:7 | lessons dated today: zero exactly when none is |
| Dashboard.HomeworkToday | Dashboard.tsx:8 | homework dated today: zero exactly when none is |
| Dashboard.HomeworkTodayAppend | Dashboard.tsx:8 | no homework counts zero, and an appended record adds one exactly when dated today; so the card is the number of records dated today |
| Dashboard.HomeworkTodayAfterAdd | Dashboard.tsx:8 | adding homework dated today adds one, homework for another day none |
| Dashboard.LessonsTodayAfterAdd | Dashboard.tsx:7 | a lesson added today adds one, one on another day none |
| Dashboard.Engagement | Dashboard.tsx:52 | the first five active teachers in store order, all of them when fewer |
| Dashboard.LessonCount | Dashboard.tsx:53 | the lessons carrying the teacher's id: zero exactly when none does |
| Dashboard.LessonCountAfterAdd | Dashboard.tsx:53 | an added lesson counts for its own teacher only |
| Dashboard.LatestBoards | Dashboard.tsx:86 | the last four lessons (all when fewer), newest first |
| Dashboard.NewestBoardFirst | Dashboard.tsx:86 | a new lesson heads the list, followed by the previous first three |
| Dashboard.NoFacultyNote | Dashboard.tsx:72 | the note shows exactly when there are no teachers |
| Dashboard.NoFacultyNoteOnlyWhenEmpty | Dashboard.tsx:72 | the note shows for a store without teachers; when every teacher has resigned it stays hidden although none is active |
| Dashboard.ArchiveEmptyNote | Dashboard.tsx:95 | the note shows exactly when there are no lessons |
| Dashboard.ArchiveNoteIffNoBoards | Dashboard.tsx:95 | the empty-archive note shows exactly when there are no boards to list |

## Left out

- HTTP, `fetch` and JSON: the request a push would send is returned as a value. The server's answer is an input, a `PushResponse` or `PullResponse`. A pulled document that does not parse is the `PullThrew` case.
- A backup file whose content is the empty string counts as missing, like an absent file: both are "no backup file" in `PullOk`.
- Local storage: writing after each change is not modelled, and loading takes the persisted document as the state. Neither loading nor pulling checks the document's shape, so `Store.WellFormed` can fail after either.
- Concurrency across `await`: each sync handler is one atomic step. The three-second reset timer is a separate step (`Reports.SyncPanel.ResetTimerFires`). The model does not capture the timer firing while a later handler is still in flight, which would re-enable the buttons early.
- `crypto.randomUUID` is a `freshId` parameter. Its uniqueness is assumed only where a lemma says so.
- `window.confirm` is a boolean parameter. The alerts are not modelled.
- The clock is an input: the current year, today's date, the weekday of the selected date and the capture time. Time-zone effects of parsing a date string are not modelled.
- `FileReader` encoding is not modelled: the encoded image is a string input.
- `parseInt` giving NaN for the start year, and the browser's `required` checks on the teacher form, are not modelled.
- Sharing with parents, the manual JSON download, rendering, routing, the login screen and the mobile menu are not modelled.
- Reports.SyncPanel.HandleGithubSync: returns the request instead of sending it, and takes the server's answer as `response`. `Sync.RemoteAfterPush` states separately what the Gist service holds afterwards.
- Store.DeleteTeacherCascade: requires a non-empty id. Vacant slots already have lead "", so "no slot refers to the id" cannot hold for "".
- TimetableView.ClearEmptiesSlot: requires one slot per key. Otherwise clearing can uncover a second slot with the same key.
