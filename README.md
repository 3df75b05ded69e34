# Task/subtask table: the state model

A Dafny model of the state behind the two React task tables of the
repository. Each table holds a list of tasks, each with a list of subtasks.
Every handler that changes the task list passes `setState` an updater that
maps the previous list to a new one. Only the tasks matched by id (or by
index in the older table) are rebuilt with an object spread. In the newer
table a few handlers leave the list alone: the row chevron updates the list
of expanded row indices, and the dialog's open, dismiss and cancel handlers
set plain values.

- `task_management.dfy`, module `TaskManagement`: the data of
  `TaskManagementTable` (src/components/TableRetry.tsx). It holds the
  `SubTask`, `Task` and `TaskFormData` records, `initialFormData`, and the
  updaters of `toggleSubtask`, `markAsCompleted`, `handleAddSubtask`,
  `updateSubtaskStatus` and `updateSubtaskPriority`, as functions over
  `seq<Task>`. The updater of `toggleActiveSubtask` is a function over the
  expanded row indices, a `seq<int>`. Each list-level updater is split into the
  `map` over the list and a function for the task whose id matched
  (`ToggleSubtaskOf`, `CompleteSelectedOf`, ...).
- `task_management_table.dfy`, module `TaskManagementComponent`: the
  component's `useState` hooks as the fields of a class
  (`tableData`, `activeSubtasks`, `isModalOpen`, `currentTaskId`,
  `formData`). Its handlers are methods. The task-list handlers and the
  guarded submit `handleAddSubtask` apply the updaters above to `tableData`;
  the chevron applies the index updater to `activeSubtasks`. The dialog's
  open button, its own dismissal (`onOpenChange`) and the cancel button set
  `currentTaskId`, `isModalOpen` and `formData` to plain values.
  `Valid()` is the state every handler preserves: each task's
  `selectedSubtasks` equals the number of its selected subtasks, no row
  index is expanded twice, and the form's status is `IN-PROGRESS` (the form
  edits never set it), so a subtask added from the form is `IN-PROGRESS`.
- `task_table.dfy`, module `TaskTable`: the older `TaskTable`
  (src/components/Table.tsx). Tasks are addressed by list index. Each task
  carries its own view flags and subtask drafts. Status and priority are
  plain strings. The `field` argument of `handleNewSubTaskChange` is the
  enumeration `DraftField = Name | Assignees | DueDate`.

The seed list (`taskData`) is a parameter of the constructor. The subtask id
that the source reads from `Date.now()` is the `freshId` parameter of
`HandleAddSubtask`. Nothing in the source makes such ids unique, and the
model does not claim they are.

## Model

| member | source | states |
|---|---|---|
| `TaskManagement.CountSelected` | src/components/TableRetry.tsx:98-99 | the count of selected subtasks is at most their number; it is 0 exactly when none is selected and the full length exactly when all are |
| `TaskManagement.CountSelectedAppend` | src/components/TableRetry.tsx:144 | appending a subtask raises the selected count by one exactly when the new subtask is selected |
| `TaskManagement.CountSelectedSameFlags` | src/components/TableRetry.tsx:163-170 | two subtask lists of equal length whose selection flags agree position by position have the same selected count, so editing status or priority cannot change it |
| `TaskManagement.CountSelectedUpdate` | src/components/TableRetry.tsx:90-99 | replacing one subtask moves the selected count by the difference of the old and the new selection flag |
| `TaskManagement.ToggleSubtaskOf` | src/components/TableRetry.tsx:89-101 | on the matching task, only `selected` of subtasks changes; it flips exactly on the subtasks whose id matches, every other subtask field stays, and the new `selectedSubtasks` agrees with the new list |
| `TaskManagement.ToggleSubtask` | src/components/TableRetry.tsx:86-106 | list length and order kept; tasks with another id unchanged; matching tasks updated as `ToggleSubtaskOf`; a list whose counts were all consistent stays consistent |
| `TaskManagement.ToggleSubtaskCount` | src/components/TableRetry.tsx:90-99 | when exactly one subtask has the id, toggling moves a consistent task's `selectedSubtasks` up by one if it was unselected and down by one if it was selected |
| `TaskManagement.ToggleSubtaskTwice` | src/components/TableRetry.tsx:86-106 | toggling the same (task, subtask) twice restores the whole list, including every flag and count, when the matching tasks' counts were consistent beforehand |
| `TaskManagement.CompleteSelectedOf` | src/components/TableRetry.tsx:111-124 | afterwards no subtask is selected and `selectedSubtasks` is 0; previously selected subtasks become `COMPLETED` and unselected; unselected ones are unchanged; the task is `COMPLETED` exactly when every subtask is, which is when every old subtask was selected or already completed; a task without subtasks becomes `COMPLETED`; nothing else in the task changes |
| `TaskManagement.MarkAsCompleted` | src/components/TableRetry.tsx:108-129 | list length and order kept; tasks with another id unchanged; matching tasks updated as `CompleteSelectedOf`; consistent counts stay consistent |
| `TaskManagement.BulkCompleteScenario` | src/components/TableRetry.tsx:86-129 | with two subtasks in progress, selecting the first gives a count of 1; bulk completion then completes only the first, clears the selection, leaves the second as it was and keeps the task `IN-PROGRESS` |
| `TaskManagement.AppendSubtaskOf` | src/components/TableRetry.tsx:136-146 | exactly one subtask is appended after the existing ones. It carries the fresh id and the form's name, assignees, due date, status and priority, and is not selected. The task's other fields are unchanged, and the selected count and its consistency are kept |
| `TaskManagement.AddSubtask` | src/components/TableRetry.tsx:134-149 | list length and order kept; tasks with another id unchanged; the matching tasks get the subtask as `AppendSubtaskOf`; consistent counts stay consistent |
| `TaskManagement.SetSubtaskStatusOf` | src/components/TableRetry.tsx:162-171 | only the `status` of subtasks with the matching id changes, to the new status; the task's own `status` and `selectedSubtasks` are left as they were (no recomputation); a consistent count stays consistent |
| `TaskManagement.UpdateSubtaskStatus` | src/components/TableRetry.tsx:155-176 | list length and order kept; tasks with another id unchanged; matching tasks updated as `SetSubtaskStatusOf`; consistent counts stay consistent |
| `TaskManagement.SetSubtaskPriorityOf` | src/components/TableRetry.tsx:185-194 | only the `priority` of subtasks with the matching id changes, to the new priority; the task's `status` and `selectedSubtasks` are left as they were; a consistent count stays consistent |
| `TaskManagement.UpdateSubtaskPriority` | src/components/TableRetry.tsx:178-199 | list length and order kept; tasks with another id unchanged; matching tasks updated as `SetSubtaskPriorityOf`; consistent counts stay consistent |
| `TaskManagement.RemoveAll` | src/components/TableRetry.tsx:81 | the filtered list holds exactly the old elements other than the removed one, is no longer than the old list, and has no repeats if the old list had none |
| `TaskManagement.ToggleActiveSubtask` | src/components/TableRetry.tsx:78-84 | the index is expanded afterwards exactly when it was not before; every other index keeps its membership; a list without repeats stays without repeats |
| `TaskManagement.ToggleActiveSubtaskTwice` | src/components/TableRetry.tsx:78-84 | toggling the same row twice restores which rows are expanded |
| `TaskManagementComponent.TaskManagementTable.constructor` | src/components/TableRetry.tsx:69-74 | the component starts with the seed list, no expanded rows, the dialog closed, no target task and the initial form |
| `TaskManagementComponent.TaskManagementTable.ToggleActiveSubtask` | src/components/TableRetry.tsx:78-84 | only `activeSubtasks` changes, as `TaskManagement.ToggleActiveSubtask`; `Valid()` is preserved |
| `TaskManagementComponent.TaskManagementTable.ToggleSubtask` | src/components/TableRetry.tsx:86-106 | only `tableData` changes, as `TaskManagement.ToggleSubtask`; `Valid()` is preserved |
| `TaskManagementComponent.TaskManagementTable.MarkAsCompleted` | src/components/TableRetry.tsx:108-129 | only `tableData` changes, as `TaskManagement.MarkAsCompleted`; `Valid()` is preserved |
| `TaskManagementComponent.TaskManagementTable.HandleAddSubtask` | src/components/TableRetry.tsx:131-153 | with no target task or an empty form name nothing changes; otherwise the subtask is added to the target task, the dialog closes and the form is reset to `initialFormData`. From a valid state the new subtask is `IN-PROGRESS`. Expanded rows and the target task are untouched, and `Valid()` is preserved |
| `TaskManagementComponent.TaskManagementTable.UpdateSubtaskStatus` | src/components/TableRetry.tsx:155-176 | only `tableData` changes, as `TaskManagement.UpdateSubtaskStatus`; `Valid()` is preserved |
| `TaskManagementComponent.TaskManagementTable.UpdateSubtaskPriority` | src/components/TableRetry.tsx:178-199 | only `tableData` changes, as `TaskManagement.UpdateSubtaskPriority`; `Valid()` is preserved |
| `TaskManagementComponent.TaskManagementTable.OpenAddSubtaskDialog` | src/components/TableRetry.tsx:449-452 | the dialog targets the task and opens; the task list and the form are untouched |
| `TaskManagementComponent.TaskManagementTable.DismissDialog` | src/components/TableRetry.tsx:442-445 | dismissing the dialog through `onOpenChange(false)` closes it but keeps the form's draft and the target task, and leaves the task list and expanded rows untouched |
| `TaskManagementComponent.TaskManagementTable.CancelAddSubtask` | src/components/TableRetry.tsx:465-468 | the dialog closes and the form is reset to `initialFormData` without touching the task list, the expanded rows or the target task |
| `TaskTable.ToggleSubtasks` | src/components/Table.tsx:67-75 | only `isSubTasksExpanded` of the task at the index flips; every other task and field is unchanged; an index outside the list leaves it unchanged |
| `TaskTable.ToggleSubtasksTwice` | src/components/Table.tsx:67-75 | toggling the same row twice restores the list |
| `TaskTable.ToggleSubtasksParity` | src/components/Table.tsx:67-75 | an even number of toggles of one row restores the list and an odd number equals a single toggle |
| `TaskTable.MarkTaskComplete` | src/components/Table.tsx:77-85 | the task at the index gets status `"completed"` and action `"Completed"` whatever its subtasks are; its subtasks and all other fields and tasks are unchanged; out-of-range leaves the list unchanged |
| `TaskTable.MarkTaskCompleteIdempotent` | src/components/Table.tsx:77-85 | marking the same task complete twice gives the same list as once |
| `TaskTable.ToggleAddSubTask` | src/components/Table.tsx:87-93 | only `isAddingSubTask` of the task at the index flips; everything else is unchanged; out-of-range leaves the list unchanged |
| `TaskTable.ToggleAddSubTaskTwice` | src/components/Table.tsx:87-93 | toggling the add form of the same row twice restores the list |
| `TaskTable.HandleNewSubTaskChange` | src/components/Table.tsx:95-105 | the draft named by the field becomes the value. The other two drafts, every other field and every other task are unchanged. An out-of-range index leaves the list unchanged |
| `TaskTable.AddSubTask` | src/components/Table.tsx:107-132 | exactly one subtask is appended and the existing ones are kept. It has the drafted name, `[assignee draft]`, the drafted due date, `"in-progress"`, `"low"` and `isCompleted = false`, with no empty-name guard. Afterwards the three drafts are `""` and the form is closed. Nothing else changes, and an out-of-range index leaves the list unchanged |
| `TaskTable.DraftThenAddSubTask` | src/components/Table.tsx:95-132 | typing a name, an assignee and a due date into one row's form and submitting appends exactly the subtask built from those three values |

## Left out

- Rendering: the table markup, class selection, the form, the select
  widgets, the dialog and checkbox components and the icons are presentation
  or calls into libraries that are not part of this model. The one state
  write the dialog makes, `onOpenChange={setIsModalOpen}`, is modelled only
  for closing (`DismissDialog`); opening goes through the trigger button.
- The edits of the add-subtask form's fields (the `onChange` handlers inside
  `TaskForm`, src/components/TableRetry.tsx:208-240) belong to the form
  markup. The model takes `formData` as it stands when the submit or cancel
  button is pressed.
- The `taskData` seed from `@/data` is not part of this model. The
  constructor takes the seed list as a parameter, so `Valid()` holds from the
  start only when the seed's counts are consistent.
- Which handlers the UI lets fire in which state is not modelled. "Mark as
  completed" is disabled while `selectedSubtasks` is 0
  (src/components/TableRetry.tsx:398). The checkbox, the status and priority
  selects and the "Add Subtask" trigger exist only for expanded rows (:404).
  The class methods can be called in any state. This over-approximates the
  UI, so every invariant proved for them also holds for the UI.
- `Date.now()` is a clock read. Its value is the `freshId` parameter, and
  no uniqueness of subtask ids is claimed.
- React's `useState` scheduling and batching are not modelled. Each updater
  is applied atomically to the current state, and `handleAddSubtask`'s three
  state writes are applied in one step.
- Ids and indices are JavaScript numbers. They are modelled as unbounded
  integers, and `selectedSubtasks` as an `int`.
- No invariant relates a task's `status` to its subtasks after
  `updateSubtaskStatus`. The source does not recompute the parent status
  there, and the model only states that it is left as it was.
- In the older table, a subtask's `isCompleted` is never kept in step with
  its `status`. The model records this as it is: `markTaskComplete` leaves
  subtasks untouched.
