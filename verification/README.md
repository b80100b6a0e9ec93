# Task manager: task-list handlers in Dafny

This project models the logic of a single-page task manager. A user creates
tasks in a form and then completes, reopens, edits or deletes them on task
cards. The task list is an array of task records held in a shared context.
Every handler replaces the array with a `map`, `filter` or prepend of the old
one, and the array is mirrored to local storage.

The model is functional. A task is an immutable `Task` datatype and the list
is a `seq<Task>`. Each handler is a pure function. The clock (`Date.now()`),
today's calendar day and the date parser are parameters.

Modules:

- `Options`: the `null`/absent value.
- `Text`: `String.prototype.trim`, over the exact whitespace set of the
  ECMAScript standard (WhiteSpace and LineTerminator).
- `Tasks`: the record, the invariants, and the three list updates
  (`updateStatus`, the merge inside `saveEdit`, `deleteTask`).
- `TaskCard`: the inline-edit state machine (`editId`, `editData`), the status
  toggle, the footer status buttons and the overdue rule.
- `TaskForm`: `addTask` with its blank-title guard, its defaults and the form
  reset; the Add button's enabled state; the Ctrl+Enter shortcut.
- `Persist`: the load fallback and write-back of the `usePersist` hook.
- `Walkthrough`: concrete runs (add "Buy milk", complete, reopen; a rejected
  blank-title edit; a task due yesterday).

Ids are not assumed to be unique. The source takes the id from `Date.now()`
and never checks for a collision. Every list update therefore acts on all
tasks with the matching id. Properties that need uniqueness say so in their
`requires`.

## Notes on behaviour

- `isOverdue` itself does not look at the status. All three of its call
  sites add "and not completed".
- `saveEdit` rejects an edit when the buffered title is blank. It checks the
  buffer before the merge, not the merged task.
- `saveEdit` stores the buffered due date as it is. A task whose due date was
  absent (`null`) therefore has the empty text `""` after a saved edit that
  leaves the date field empty (`TaskCard.StartThenSave`). Both values read as
  "no due date" everywhere.

## Model

| member | source | states |
|---|---|---|
| Text.Trim | src/components/TaskForm.jsx:16-21 | trimming gives the slice of the input between blank margins, with no whitespace at either end; it is empty exactly when the input is all whitespace |
| Text.TrimIdempotent | src/components/TaskCard.jsx:52-59 | trimming an already trimmed title changes nothing, so stored titles are fixed points of the edit path |
| Text.TrimUnique | src/components/TaskForm.jsx:20 | any cut of a string into blank margins and a middle with non-blank ends yields exactly what trim yields |
| Tasks.WithStatus | src/components/TaskCard.jsx:29-34 | the status becomes the requested one; completedAt is the clock reading when completing and absent otherwise, so one task satisfies the completion invariant; all other fields are kept |
| Tasks.UpdateStatus | src/components/TaskCard.jsx:26-38 | same length and order; every task with the id gets the status, with completedAt present iff the status is completed; every other task is unchanged |
| Tasks.UpdateStatusKeepsConsistency | src/components/TaskCard.jsx:29-34 | if completedAt is present exactly for completed tasks before a status change, that still holds after it |
| Tasks.UpdateStatusKeepsTitles | src/components/TaskCard.jsx:26-38 | a status change keeps every title non-empty and trimmed |
| Tasks.UpdateStatusAbsent | src/components/TaskCard.jsx:27-36 | a status change for an id no task has returns the list unchanged |
| Tasks.CompleteThenReopen | src/components/TaskCard.jsx:26-38 | completing and then reopening a task leaves it pending with no completion time and its content intact |
| Tasks.Patch | src/components/TaskCard.jsx:57-59 | the fields spread over an edited task are the buffer's, with title and description trimmed; a non-blank buffered title yields a non-empty trimmed title |
| Tasks.Edited | src/components/TaskCard.jsx:55-60 | the merged task takes title, description, priority, category and due date from the patch; id, status, createdAt and completedAt are kept |
| Tasks.ApplyEdit | src/components/TaskCard.jsx:53-61 | same length and order; each task with the id becomes the merge of itself and the patch; every other task is unchanged |
| Tasks.ApplyEditKeepsConsistency | src/components/TaskCard.jsx:55-60 | an edit cannot break the completion invariant, since the buffer carries neither status nor completedAt |
| Tasks.ApplyEditKeepsTitles | src/components/TaskCard.jsx:52-58 | an edit whose buffered title is not blank leaves every title non-empty and trimmed |
| Tasks.ApplyEditKeepsIds | src/components/TaskCard.jsx:55-57 | an edit changes no task's id |
| Tasks.ApplyEditAbsent | src/components/TaskCard.jsx:53-61 | an edit for an id no task has returns the list unchanged |
| Tasks.Delete | src/components/TaskCard.jsx:72-74 | no task with the id remains; every other task remains; nothing new appears; an absent id leaves the list unchanged; a present id shortens it |
| Tasks.DeleteIdempotent | src/components/TaskCard.jsx:72-74 | deleting the same id twice is the same as deleting it once |
| Tasks.DeleteAppend | src/components/TaskCard.jsx:73 | deleting from a concatenation is the concatenation of the deletions, so survivors keep their relative order |
| Tasks.DeleteCommutes | src/components/TaskCard.jsx:72-74 | deleting two ids gives the same list in either order |
| Tasks.DeleteKeepsInvariants | src/components/TaskCard.jsx:72-74 | deleting keeps the completion invariant and well-formed titles of the remaining tasks |
| Tasks.DeleteUniqueRemovesOne | src/components/TaskCard.jsx:73 | when ids are unique, deleting a present id removes exactly one task |
| TaskCard.BufferOf | src/components/TaskCard.jsx:42-48 | the edit buffer copies the task's five editable fields; an absent due date becomes "" |
| TaskCard.StartEdit | src/components/TaskCard.jsx:40-49 | starting an edit leaves the list alone, sets editId to the task's id and fills the buffer from the task |
| TaskCard.SaveEdit | src/components/TaskCard.jsx:51-65 | with no buffer or a blank buffered title, nothing changes (list and edit state); otherwise the buffer is merged into the matching tasks and the edit state returns to idle; "editing iff buffer present" is preserved |
| TaskCard.CancelEdit | src/components/TaskCard.jsx:67-70 | cancelling leaves the list alone and clears editId and editData |
| TaskCard.SaveEditAbsent | src/components/TaskCard.jsx:53-61 | saving for an id no task has leaves the list unchanged |
| TaskCard.SaveEditKeepsInvariants | src/components/TaskCard.jsx:51-65 | a save keeps the completion invariant and well-formed titles of the whole list |
| TaskCard.StartThenSave | src/components/TaskCard.jsx:40-65 | opening the editor on a task with trimmed text and saving unchanged returns the same list, except that an absent due date becomes "", and ends editing |
| TaskCard.StartThenCancel | src/components/TaskCard.jsx:40-70 | opening the editor and cancelling restores the idle state with the list untouched |
| TaskCard.Toggle | src/components/TaskCard.jsx:132-134 | the toggle asks for completed exactly when the task is not completed, and never for in-progress |
| TaskCard.ToggleTwice | src/components/TaskCard.jsx:132-134 | toggling a pending or completed status twice returns it |
| TaskCard.ToggleClickFlips | src/components/TaskCard.jsx:132-134 | clicking the toggle reopens a completed task with no completion time, or completes an open one at the clock reading |
| TaskCard.FooterAction | src/components/TaskCard.jsx:276-294 | a card not under edit shows exactly one status button, and it requests the same status as the toggle; a card under edit shows none |
| TaskCard.IsOverdue | src/components/TaskCard.jsx:100-103 | an absent or empty due date is never overdue; otherwise overdue iff the date reads as a day strictly before today |
| TaskCard.ShowOverdue | src/components/TaskCard.jsx:258-261 | the overdue marking holds iff the task is not completed and has a non-empty due date that reads as a day strictly before today |
| TaskCard.CompletedNotOverdue | src/components/TaskCard.jsx:122 | a task just completed is never marked overdue |
| TaskCard.OverdueStaysOverdue | src/components/TaskCard.jsx:100-103 | a due date overdue today is overdue on every later day |
| TaskForm.NewTask | src/components/TaskForm.jsx:18-28 | the new record has id and createdAt from the clock, trimmed text, the form's priority, status pending with no completion time, an empty due date stored as absent, an empty category stored as "General", and a non-empty trimmed title when the form's title is not blank |
| TaskForm.AddTask | src/components/TaskForm.jsx:15-36 | a blank title changes neither list nor form; otherwise the list grows by one, the new task is first, the old list follows unchanged, and the form is back to its initial values |
| TaskForm.AddDisabled | src/components/TaskForm.jsx:138 | the Add button is disabled exactly when the title is all whitespace |
| TaskForm.HandleKeyPress | src/components/TaskForm.jsx:38-42 | only Enter with Ctrl held submits; then a non-blank title prepends the new task and resets the form |
| TaskForm.AddTaskEffectIffEnabled | src/components/TaskForm.jsx:16 | addTask changes the state exactly when the Add button is enabled |
| TaskForm.AddTaskKeepsInvariants | src/components/TaskForm.jsx:23-30 | adding keeps the completion invariant and well-formed titles of the whole list |
| TaskForm.AddTaskKeepsIdsUnique | src/components/TaskForm.jsx:19 | with a clock past every existing id, adding keeps ids unique |
| TaskForm.AddThenDelete | src/components/TaskForm.jsx:30 | deleting the id just added restores the old list, when no older task had that id |
| Persist.Load | src/hooks/usePersist.jsx:4-11 | the initial state is the parsed stored text; a missing key, empty text or unparseable text gives the caller's initial value |
| Persist.Save | src/hooks/usePersist.jsx:13-15 | writing stores the serialised state under the key and leaves other keys alone |
| Persist.SaveThenLoad | src/hooks/usePersist.jsx:4-15 | a saved value whose text is non-empty and parses back to it is what the next load returns |
| Persist.SaveKeepsOtherKeys | src/hooks/usePersist.jsx:14 | saving under one key does not change what another key loads |
| Walkthrough.BuyMilk | src/components/TaskForm.jsx:18-30 | adding "Buy milk" to an empty list gives one pending task with the defaults; completing stamps the time, reopening clears it |
| Walkthrough.BlankTitleEditRejected | src/components/TaskCard.jsx:52 | saving an edit whose title is only spaces keeps the old title |
| Walkthrough.YesterdayOverdue | src/components/TaskCard.jsx:258-261 | a pending task due yesterday is marked overdue; once completed it is not |

## Left out

- Rendering: JSX, Tailwind classes, icons, and the colour tables `getPriorityColor` and `getStatusColor`. They are presentation only.
- Date display: `formatDate`, the relative times from dayjs, `toLocaleDateString` and the `min` hint on the date input. They are locale and library calls with no effect on state.
- Label capitalisation with `toUpperCase` depends on Unicode case mapping and only affects display.
- TaskCard.IsOverdue: dayjs reads the due-date text into a calendar day. Here that reading is the parameter `dayOf`, with `None` for a date dayjs cannot read. `today` is the current calendar day as an integer.
- Tasks.UpdateStatus: the source calls `new Date().toISOString()` inside the `map` callback, once for each matching task, and stores an ISO string. The model takes one clock reading `now` per call and stores it as an integer. With duplicate ids, the source can stamp two matching tasks with different times if the clock ticks between them; the model gives them all the same `completedAt`.
- TaskForm.NewTask: the source reads the clock twice, once for the id (`Date.now()`) and once for `createdAt`. The model uses one reading `now` for both. `createdAt` is a millisecond count here and an ISO string in the source.
- The `onChange` setters of the form fields and of the edit inputs are plain field assignments and are not modelled. As a result, `editData` is either empty or a complete buffer. This matches the source, because the edit inputs are only shown while a task is being edited.
- Status and priority are enumerations. Stored data holding other strings is out of scope.
- Strings are sequences of Unicode scalar values, while JavaScript strings are UTF-16 code units. No whitespace character is a surrogate, so trim behaves the same on both.
- Persist.Load: JSON serialisation is the pair of parameters `serialize` and `parse`. An exception from the storage read itself is treated the same as unparseable text.
- Persist.Save: `localStorage.setItem` can throw, for example when the storage quota is exceeded, and then nothing is stored. The model's save always succeeds, because storage failures are outside this model.
- React state batching and scheduling are left out. Each handler is one sequential update.
- The navigation bar, routing, the task context provider and `temp.jsx` are wiring with no logic of their own.
