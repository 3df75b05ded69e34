/**
 * The earlier TaskTable component. Tasks are addressed by their position in
 * the list, and each task carries its own view flags and the drafts of the
 * subtask being added. Every handler replaces the list with
 * `prevTasks.map((task, i) => i === index ? { ...task, ... } : task)`, so an
 * index outside the list leaves it as it was.
 */
module TaskTable {

  datatype SubTask = SubTask(
    name: string,
    assignees: seq<string>,
    dueDate: string,
    status: string,
    priority: string,
    isCompleted: bool)

  datatype Task = Task(
    name: string,
    assignees: seq<string>,
    dueDate: string,
    subTasks: string,
    status: string,
    priority: string,
    action: string,
    subTasksList: seq<SubTask>,
    isSubTasksExpanded: bool,
    isAddingSubTask: bool,
    newSubTaskName: string,
    newSubTaskAssignees: string,
    newSubTaskDueDate: string)

  /** The `field` of handleNewSubTaskChange: the suffix of the key `newSubTask${field}`. */
  datatype DraftField = Name | Assignees | DueDate

  /** `prevTasks.map((task, i) => i === index ? f(task) : task)` */
  function UpdateAt(tasks: seq<Task>, index: int, f: Task -> Task): (r: seq<Task>)
    ensures |r| == |tasks|
  {
    seq(|tasks|, i requires 0 <= i < |tasks| => if i == index then f(tasks[i]) else tasks[i])
  }

  // ---------------------------------------------------------------------------
  // toggleSubtasks

  /** The updater of toggleSubtasks(index): show or hide the subtasks of one row. */
  function ToggleSubtasks(tasks: seq<Task>, index: int): (r: seq<Task>)
    ensures |r| == |tasks|
    ensures forall j :: 0 <= j < |tasks| && j != index ==> r[j] == tasks[j]
    ensures 0 <= index < |tasks| ==>
      && r[index].isSubTasksExpanded == !tasks[index].isSubTasksExpanded
      && r[index] == tasks[index].(isSubTasksExpanded := r[index].isSubTasksExpanded)
    ensures !(0 <= index < |tasks|) ==> r == tasks
  {
    UpdateAt(tasks, index, (t: Task) => t.(isSubTasksExpanded := !t.isSubTasksExpanded))
  }

  lemma ToggleSubtasksTwice(tasks: seq<Task>, index: int)
    ensures ToggleSubtasks(ToggleSubtasks(tasks, index), index) == tasks
  {
  }

  /** `n` clicks on the chevron of row `index`. */
  function ToggleSubtasksTimes(tasks: seq<Task>, index: int, n: nat): (r: seq<Task>) {
    if n == 0 then tasks else ToggleSubtasks(ToggleSubtasksTimes(tasks, index, n - 1), index)
  }

  /** An even number of clicks restores the list; an odd number is one click. */
  lemma {:induction false} ToggleSubtasksParity(tasks: seq<Task>, index: int, n: nat)
    ensures ToggleSubtasksTimes(tasks, index, n) ==
            if n % 2 == 0 then tasks else ToggleSubtasks(tasks, index)
  {
    if n > 0 {
      ToggleSubtasksParity(tasks, index, n - 1);
      if n % 2 == 0 {
        ToggleSubtasksTwice(tasks, index);
      }
    }
  }

  // ---------------------------------------------------------------------------
  // markTaskComplete

  /**
   * The updater of markTaskComplete(index): the task is marked completed
   * whatever its subtasks are, and the subtasks (their `status` and
   * `isCompleted` included) are left as they were.
   */
  function MarkTaskComplete(tasks: seq<Task>, index: int): (r: seq<Task>)
    ensures |r| == |tasks|
    ensures forall j :: 0 <= j < |tasks| && j != index ==> r[j] == tasks[j]
    ensures 0 <= index < |tasks| ==>
      && r[index].status == "completed"
      && r[index].action == "Completed"
      && r[index] == tasks[index].(status := r[index].status, action := r[index].action)
    ensures !(0 <= index < |tasks|) ==> r == tasks
  {
    UpdateAt(tasks, index, (t: Task) => t.(status := "completed", action := "Completed"))
  }

  lemma MarkTaskCompleteIdempotent(tasks: seq<Task>, index: int)
    ensures MarkTaskComplete(MarkTaskComplete(tasks, index), index) == MarkTaskComplete(tasks, index)
  {
  }

  // ---------------------------------------------------------------------------
  // toggleAddSubTask

  /** The updater of toggleAddSubTask(index): open or close the add-subtask form of one row. */
  function ToggleAddSubTask(tasks: seq<Task>, index: int): (r: seq<Task>)
    ensures |r| == |tasks|
    ensures forall j :: 0 <= j < |tasks| && j != index ==> r[j] == tasks[j]
    ensures 0 <= index < |tasks| ==>
      && r[index].isAddingSubTask == !tasks[index].isAddingSubTask
      && r[index] == tasks[index].(isAddingSubTask := r[index].isAddingSubTask)
    ensures !(0 <= index < |tasks|) ==> r == tasks
  {
    UpdateAt(tasks, index, (t: Task) => t.(isAddingSubTask := !t.isAddingSubTask))
  }

  lemma ToggleAddSubTaskTwice(tasks: seq<Task>, index: int)
    ensures ToggleAddSubTask(ToggleAddSubTask(tasks, index), index) == tasks
  {
  }

  // ---------------------------------------------------------------------------
  // handleNewSubTaskChange

  /** The draft that `field` names. */
  function Draft(t: Task, field: DraftField): (draft: string) {
    match field
    case Name => t.newSubTaskName
    case Assignees => t.newSubTaskAssignees
    case DueDate => t.newSubTaskDueDate
  }

  /** `{ ...task, [`newSubTask${field}`]: value }` */
  function WithDraft(t: Task, field: DraftField, value: string): (u: Task) {
    match field
    case Name => t.(newSubTaskName := value)
    case Assignees => t.(newSubTaskAssignees := value)
    case DueDate => t.(newSubTaskDueDate := value)
  }

  /**
   * The updater of handleNewSubTaskChange(index, field, value): the draft
   * named by `field` on task `index` becomes `value`; the other drafts and
   * every other field and task stay as they were.
   */
  function HandleNewSubTaskChange(tasks: seq<Task>, index: int, field: DraftField, value: string): (r: seq<Task>)
    ensures |r| == |tasks|
    ensures forall j :: 0 <= j < |tasks| && j != index ==> r[j] == tasks[j]
    ensures 0 <= index < |tasks| ==>
      && Draft(r[index], field) == value
      && (forall other: DraftField :: other != field ==> Draft(r[index], other) == Draft(tasks[index], other))
      && r[index] == tasks[index].(newSubTaskName := r[index].newSubTaskName,
                                   newSubTaskAssignees := r[index].newSubTaskAssignees,
                                   newSubTaskDueDate := r[index].newSubTaskDueDate)
    ensures !(0 <= index < |tasks|) ==> r == tasks
  {
    UpdateAt(tasks, index, (t: Task) => WithDraft(t, field, value))
  }

  // ---------------------------------------------------------------------------
  // addSubTask

  /** The subtask addSubTask builds from a task's drafts. */
  function DraftSubTask(t: Task): (s: SubTask) {
    SubTask(t.newSubTaskName, [t.newSubTaskAssignees], t.newSubTaskDueDate, "in-progress", "low", false)
  }

  /**
   * The updater of addSubTask(index): one subtask built from the drafts is
   * appended (even when the name draft is empty), then the drafts are cleared
   * and the form is closed.
   */
  function AddSubTask(tasks: seq<Task>, index: int): (r: seq<Task>)
    ensures |r| == |tasks|
    ensures forall j :: 0 <= j < |tasks| && j != index ==> r[j] == tasks[j]
    ensures 0 <= index < |tasks| ==>
      var t, u := tasks[index], r[index];
      && |u.subTasksList| == |t.subTasksList| + 1
      && u.subTasksList[..|t.subTasksList|] == t.subTasksList
      && (var s := u.subTasksList[|t.subTasksList|];
          && s.name == t.newSubTaskName && s.assignees == [t.newSubTaskAssignees]
          && s.dueDate == t.newSubTaskDueDate
          && s.status == "in-progress" && s.priority == "low" && !s.isCompleted)
      && u.newSubTaskName == "" && u.newSubTaskAssignees == "" && u.newSubTaskDueDate == ""
      && !u.isAddingSubTask
      && u == t.(subTasksList := u.subTasksList, isAddingSubTask := false,
                 newSubTaskName := "", newSubTaskAssignees := "", newSubTaskDueDate := "")
    ensures !(0 <= index < |tasks|) ==> r == tasks
  {
    UpdateAt(tasks, index, (t: Task) =>
      t.(subTasksList := t.subTasksList + [DraftSubTask(t)],
         isAddingSubTask := false,
         newSubTaskName := "",
         newSubTaskAssignees := "",
         newSubTaskDueDate := ""))
  }

  /**
   * Typing a name, an assignee and a due date into the form of row `index`
   * and submitting appends a subtask carrying exactly those three values.
   */
  lemma DraftThenAddSubTask(tasks: seq<Task>, index: int, name: string, assignee: string, dueDate: string)
    requires 0 <= index < |tasks|
    ensures var typed := HandleNewSubTaskChange(
                           HandleNewSubTaskChange(
                             HandleNewSubTaskChange(tasks, index, Name, name),
                             index, Assignees, assignee),
                           index, DueDate, dueDate);
            var r := AddSubTask(typed, index);
            && |r| == |tasks|
            && r[index].subTasksList ==
               tasks[index].subTasksList + [SubTask(name, [assignee], dueDate, "in-progress", "low", false)]
  {
  }
}
