/**
 * The task/subtask data of the TaskManagementTable component and the updaters
 * its event handlers pass to `setTableData` and `setActiveSubtasks`.
 *
 * Every updater passed to `setTableData` maps the previous list of tasks to
 * a new one: tasks are matched by `id`, the matching ones are rebuilt with an
 * object spread, and every other task is passed through as it was. The
 * updater passed to `setActiveSubtasks` works on the list of expanded row
 * indices instead.
 */
module TaskManagement {

  datatype Option<T> = None | Some(value: T)

  /** "IN-PROGRESS" | "COMPLETED" */
  datatype Status = InProgress | Completed

  /** "HIGH" | "NORMAL" */
  datatype Priority = High | Normal

  datatype SubTask = SubTask(
    id: int,
    name: string,
    assignees: seq<string>,
    dueDate: string,
    status: Status,
    priority: Priority,
    selected: bool)

  datatype Task = Task(
    id: int,
    name: string,
    assignees: seq<string>,
    dueDate: string,
    status: Status,
    priority: Priority,
    selectedSubtasks: int,
    subTasksList: seq<SubTask>)

  /** The fields of the add-subtask dialog. */
  datatype TaskFormData = TaskFormData(
    name: string,
    assignees: seq<string>,
    dueDate: string,
    status: Status,
    priority: Priority,
    selected: bool)

  const InitialFormData: TaskFormData := TaskFormData("", [], "", InProgress, Normal, false)

  // ---------------------------------------------------------------------------
  // The selection count and the invariants of a task

  /** The number of subtasks whose `selected` flag is set. */
  function CountSelected(subs: seq<SubTask>): (n: nat)
    ensures n <= |subs|
    ensures n == 0 <==> forall k :: 0 <= k < |subs| ==> !subs[k].selected
    ensures n == |subs| <==> forall k :: 0 <= k < |subs| ==> subs[k].selected
  {
    if subs == [] then 0
    else (if subs[0].selected then 1 else 0) + CountSelected(subs[1..])
  }

  /** The derived `selectedSubtasks` count agrees with the subtasks. */
  predicate Consistent(t: Task) {
    t.selectedSubtasks == CountSelected(t.subTasksList)
  }

  predicate AllConsistent(tasks: seq<Task>) {
    forall i :: 0 <= i < |tasks| ==> Consistent(tasks[i])
  }

  /** `every((st) => st.status === "COMPLETED")` */
  predicate AllCompleted(subs: seq<SubTask>) {
    forall k :: 0 <= k < |subs| ==> subs[k].status == Completed
  }

  /** Appending a subtask adds one to the count exactly when it is selected. */
  lemma {:induction false} CountSelectedAppend(subs: seq<SubTask>, s: SubTask)
    ensures CountSelected(subs + [s]) == CountSelected(subs) + (if s.selected then 1 else 0)
  {
    if subs != [] {
      assert (subs + [s])[1..] == subs[1..] + [s];
      CountSelectedAppend(subs[1..], s);
    }
  }

  /** Only the selection flags matter to the count. */
  lemma {:induction false} CountSelectedSameFlags(a: seq<SubTask>, b: seq<SubTask>)
    requires |a| == |b|
    requires forall k :: 0 <= k < |a| ==> a[k].selected == b[k].selected
    ensures CountSelected(a) == CountSelected(b)
  {
    if a != [] {
      CountSelectedSameFlags(a[1..], b[1..]);
    }
  }

  /** Replacing one subtask changes the count by the difference of the two flags. */
  lemma {:induction false} CountSelectedUpdate(subs: seq<SubTask>, k: nat, s: SubTask)
    requires k < |subs|
    ensures CountSelected(subs[k := s]) ==
            CountSelected(subs) - (if subs[k].selected then 1 else 0) + (if s.selected then 1 else 0)
  {
    if k == 0 {
      assert subs[k := s][1..] == subs[1..];
    } else {
      assert subs[k := s][1..] == subs[1..][k - 1 := s];
      CountSelectedUpdate(subs[1..], k - 1, s);
    }
  }

  // ---------------------------------------------------------------------------
  // The two `map` shapes the updaters share

  /** `prevData.map((task) => task.id === taskId ? f(task) : task)` */
  function MapMatchingTasks(tasks: seq<Task>, taskId: int, f: Task -> Task): (r: seq<Task>)
    ensures |r| == |tasks|
  {
    seq(|tasks|, i requires 0 <= i < |tasks| => if tasks[i].id == taskId then f(tasks[i]) else tasks[i])
  }

  /** `subTasksList.map((subtask) => subtask.id === subtaskId ? f(subtask) : subtask)` */
  function MapMatchingSubtasks(subs: seq<SubTask>, subtaskId: int, f: SubTask -> SubTask): (r: seq<SubTask>)
    ensures |r| == |subs|
  {
    seq(|subs|, k requires 0 <= k < |subs| => if subs[k].id == subtaskId then f(subs[k]) else subs[k])
  }

  // ---------------------------------------------------------------------------
  // toggleSubtask

  /** What toggleSubtask does to a task whose id matched. */
  function ToggleSubtaskOf(t: Task, subtaskId: int): (r: Task)
    ensures r == t.(subTasksList := r.subTasksList, selectedSubtasks := r.selectedSubtasks)
    ensures |r.subTasksList| == |t.subTasksList|
    ensures forall k :: 0 <= k < |t.subTasksList| ==>
      r.subTasksList[k] == t.subTasksList[k].(selected := r.subTasksList[k].selected)
    ensures forall k :: 0 <= k < |t.subTasksList| ==>
      (r.subTasksList[k].selected <==> (t.subTasksList[k].selected != (t.subTasksList[k].id == subtaskId)))
    ensures Consistent(r)
  {
    var updated := MapMatchingSubtasks(t.subTasksList, subtaskId, (s: SubTask) => s.(selected := !s.selected));
    t.(selectedSubtasks := CountSelected(updated), subTasksList := updated)
  }

  /** The updater of toggleSubtask(taskId, subtaskId). */
  function ToggleSubtask(tasks: seq<Task>, taskId: int, subtaskId: int): (r: seq<Task>)
    ensures |r| == |tasks|
    ensures forall i :: 0 <= i < |tasks| && tasks[i].id != taskId ==> r[i] == tasks[i]
    ensures forall i :: 0 <= i < |tasks| && tasks[i].id == taskId ==> r[i] == ToggleSubtaskOf(tasks[i], subtaskId)
    ensures AllConsistent(tasks) ==> AllConsistent(r)
  {
    MapMatchingTasks(tasks, taskId, t => ToggleSubtaskOf(t, subtaskId))
  }

  /**
   * When exactly one subtask carries `subtaskId`, toggling it moves the count
   * of a consistent task by one: up if it was unselected, down if it was.
   */
  lemma ToggleSubtaskCount(t: Task, subtaskId: int, k: nat)
    requires Consistent(t)
    requires k < |t.subTasksList| && t.subTasksList[k].id == subtaskId
    requires forall j :: 0 <= j < |t.subTasksList| && j != k ==> t.subTasksList[j].id != subtaskId
    ensures ToggleSubtaskOf(t, subtaskId).selectedSubtasks ==
            t.selectedSubtasks + (if t.subTasksList[k].selected then -1 else 1)
  {
    var subs := t.subTasksList;
    var r := ToggleSubtaskOf(t, subtaskId);
    var flipped := subs[k := subs[k].(selected := !subs[k].selected)];
    assert r.subTasksList == flipped;
    CountSelectedUpdate(subs, k, subs[k].(selected := !subs[k].selected));
  }

  /**
   * Toggling the same subtask twice restores the list, provided each matching
   * task's count was consistent beforehand.
   */
  lemma ToggleSubtaskTwice(tasks: seq<Task>, taskId: int, subtaskId: int)
    requires forall i :: 0 <= i < |tasks| && tasks[i].id == taskId ==> Consistent(tasks[i])
    ensures ToggleSubtask(ToggleSubtask(tasks, taskId, subtaskId), taskId, subtaskId) == tasks
  {
    var once := ToggleSubtask(tasks, taskId, subtaskId);
    var twice := ToggleSubtask(once, taskId, subtaskId);
    forall i | 0 <= i < |tasks|
      ensures twice[i] == tasks[i]
    {
      if tasks[i].id == taskId {
        var t, t2 := tasks[i], twice[i];
        assert t2.subTasksList == t.subTasksList;
      }
    }
  }

  // ---------------------------------------------------------------------------
  // markAsCompleted

  /** What markAsCompleted does to a task whose id matched. */
  function CompleteSelectedOf(t: Task): (r: Task)
    ensures r == t.(selectedSubtasks := 0, subTasksList := r.subTasksList, status := r.status)
    ensures |r.subTasksList| == |t.subTasksList|
    ensures forall k :: 0 <= k < |t.subTasksList| ==> !r.subTasksList[k].selected
    ensures forall k :: 0 <= k < |t.subTasksList| && t.subTasksList[k].selected ==>
      r.subTasksList[k] == t.subTasksList[k].(status := Completed, selected := false)
    ensures forall k :: 0 <= k < |t.subTasksList| && !t.subTasksList[k].selected ==>
      r.subTasksList[k] == t.subTasksList[k]
    ensures r.status == Completed <==> AllCompleted(r.subTasksList)
    ensures r.status == Completed <==>
      forall k :: 0 <= k < |t.subTasksList| ==> t.subTasksList[k].selected || t.subTasksList[k].status == Completed
    ensures t.subTasksList == [] ==> r.status == Completed
    ensures Consistent(r)
  {
    var updated := seq(|t.subTasksList|, k requires 0 <= k < |t.subTasksList| =>
      var s := t.subTasksList[k];
      if s.selected then s.(status := Completed, selected := false) else s);
    t.(selectedSubtasks := 0,
       subTasksList := updated,
       status := if AllCompleted(updated) then Completed else InProgress)
  }

  /** The updater of markAsCompleted(taskId). */
  function MarkAsCompleted(tasks: seq<Task>, taskId: int): (r: seq<Task>)
    ensures |r| == |tasks|
    ensures forall i :: 0 <= i < |tasks| && tasks[i].id != taskId ==> r[i] == tasks[i]
    ensures forall i :: 0 <= i < |tasks| && tasks[i].id == taskId ==> r[i] == CompleteSelectedOf(tasks[i])
    ensures AllConsistent(tasks) ==> AllConsistent(r)
  {
    MapMatchingTasks(tasks, taskId, CompleteSelectedOf)
  }

  /**
   * A task with two subtasks in progress: selecting the first and
   * bulk-completing completes only that one, clears the selection and leaves
   * the task in progress.
   */
  lemma BulkCompleteScenario(t: Task, a: SubTask, b: SubTask)
    requires t.subTasksList == [a, b] && Consistent(t)
    requires a.id != b.id && a.status == InProgress && b.status == InProgress
    requires !a.selected && !b.selected
    ensures var selectedFirst := ToggleSubtaskOf(t, a.id);
            var r := CompleteSelectedOf(selectedFirst);
            && selectedFirst.selectedSubtasks == 1
            && r.subTasksList == [a.(status := Completed), b]
            && r.status == InProgress
            && r.selectedSubtasks == 0
  {
  }

  // ---------------------------------------------------------------------------
  // handleAddSubtask

  /** `{ ...formData, id: freshId, selected: false }` */
  function NewSubtask(form: TaskFormData, freshId: int): (s: SubTask) {
    SubTask(freshId, form.name, form.assignees, form.dueDate, form.status, form.priority, false)
  }

  /** What handleAddSubtask does to the task whose id is `currentTaskId`. */
  function AppendSubtaskOf(t: Task, form: TaskFormData, freshId: int): (r: Task)
    ensures r == t.(subTasksList := r.subTasksList)
    ensures |r.subTasksList| == |t.subTasksList| + 1
    ensures r.subTasksList[..|t.subTasksList|] == t.subTasksList
    ensures var s := r.subTasksList[|t.subTasksList|];
      && s.id == freshId && s.name == form.name && s.assignees == form.assignees
      && s.dueDate == form.dueDate && s.status == form.status && s.priority == form.priority
      && !s.selected
    ensures CountSelected(r.subTasksList) == CountSelected(t.subTasksList)
    ensures Consistent(t) ==> Consistent(r)
  {
    var s := NewSubtask(form, freshId);
    CountSelectedAppend(t.subTasksList, s);
    t.(subTasksList := t.subTasksList + [s])
  }

  /** The updater handleAddSubtask passes to setTableData once its guard has passed. */
  function AddSubtask(tasks: seq<Task>, taskId: int, form: TaskFormData, freshId: int): (r: seq<Task>)
    ensures |r| == |tasks|
    ensures forall i :: 0 <= i < |tasks| && tasks[i].id != taskId ==> r[i] == tasks[i]
    ensures forall i :: 0 <= i < |tasks| && tasks[i].id == taskId ==> r[i] == AppendSubtaskOf(tasks[i], form, freshId)
    ensures AllConsistent(tasks) ==> AllConsistent(r)
  {
    MapMatchingTasks(tasks, taskId, t => AppendSubtaskOf(t, form, freshId))
  }

  // ---------------------------------------------------------------------------
  // updateSubtaskStatus and updateSubtaskPriority

  /** What updateSubtaskStatus does to a task whose id matched. */
  function SetSubtaskStatusOf(t: Task, subtaskId: int, newStatus: Status): (r: Task)
    ensures r == t.(subTasksList := r.subTasksList)
    ensures |r.subTasksList| == |t.subTasksList|
    ensures forall k :: 0 <= k < |t.subTasksList| ==>
      r.subTasksList[k] == t.subTasksList[k].(status := r.subTasksList[k].status)
    ensures forall k :: 0 <= k < |t.subTasksList| ==>
      r.subTasksList[k].status == (if t.subTasksList[k].id == subtaskId then newStatus else t.subTasksList[k].status)
    ensures Consistent(t) ==> Consistent(r)
  {
    var updated := MapMatchingSubtasks(t.subTasksList, subtaskId, (s: SubTask) => s.(status := newStatus));
    CountSelectedSameFlags(t.subTasksList, updated);
    t.(subTasksList := updated)
  }

  /** The updater of updateSubtaskStatus(taskId, subtaskId, newStatus). */
  function UpdateSubtaskStatus(tasks: seq<Task>, taskId: int, subtaskId: int, newStatus: Status): (r: seq<Task>)
    ensures |r| == |tasks|
    ensures forall i :: 0 <= i < |tasks| && tasks[i].id != taskId ==> r[i] == tasks[i]
    ensures forall i :: 0 <= i < |tasks| && tasks[i].id == taskId ==>
      r[i] == SetSubtaskStatusOf(tasks[i], subtaskId, newStatus)
    ensures AllConsistent(tasks) ==> AllConsistent(r)
  {
    MapMatchingTasks(tasks, taskId, t => SetSubtaskStatusOf(t, subtaskId, newStatus))
  }

  /** What updateSubtaskPriority does to a task whose id matched. */
  function SetSubtaskPriorityOf(t: Task, subtaskId: int, newPriority: Priority): (r: Task)
    ensures r == t.(subTasksList := r.subTasksList)
    ensures |r.subTasksList| == |t.subTasksList|
    ensures forall k :: 0 <= k < |t.subTasksList| ==>
      r.subTasksList[k] == t.subTasksList[k].(priority := r.subTasksList[k].priority)
    ensures forall k :: 0 <= k < |t.subTasksList| ==>
      r.subTasksList[k].priority == (if t.subTasksList[k].id == subtaskId then newPriority else t.subTasksList[k].priority)
    ensures Consistent(t) ==> Consistent(r)
  {
    var updated := MapMatchingSubtasks(t.subTasksList, subtaskId, (s: SubTask) => s.(priority := newPriority));
    CountSelectedSameFlags(t.subTasksList, updated);
    t.(subTasksList := updated)
  }

  /** The updater of updateSubtaskPriority(taskId, subtaskId, newPriority). */
  function UpdateSubtaskPriority(tasks: seq<Task>, taskId: int, subtaskId: int, newPriority: Priority): (r: seq<Task>)
    ensures |r| == |tasks|
    ensures forall i :: 0 <= i < |tasks| && tasks[i].id != taskId ==> r[i] == tasks[i]
    ensures forall i :: 0 <= i < |tasks| && tasks[i].id == taskId ==>
      r[i] == SetSubtaskPriorityOf(tasks[i], subtaskId, newPriority)
    ensures AllConsistent(tasks) ==> AllConsistent(r)
  {
    MapMatchingTasks(tasks, taskId, t => SetSubtaskPriorityOf(t, subtaskId, newPriority))
  }

  // ---------------------------------------------------------------------------
  // toggleActiveSubtask

  predicate Distinct(s: seq<int>) {
    forall i, j :: 0 <= i < j < |s| ==> s[i] != s[j]
  }

  /** `s.filter((i) => i !== x)` */
  function RemoveAll(s: seq<int>, x: int): (r: seq<int>)
    ensures |r| <= |s|
    ensures forall y :: y in r <==> y in s && y != x
    ensures Distinct(s) ==> Distinct(r)
  {
    if s == [] then []
    else
      var rest := RemoveAll(s[1..], x);
      assert Distinct(s) ==> Distinct(s[1..]) && s[0] !in s[1..];
      if s[0] == x then rest else [s[0]] + rest
  }

  /** The updater of toggleActiveSubtask(index) over the expanded row indices. */
  function ToggleActiveSubtask(active: seq<int>, index: int): (r: seq<int>)
    ensures index in r <==> index !in active
    ensures forall j :: j != index ==> (j in r <==> j in active)
    ensures Distinct(active) ==> Distinct(r)
  {
    if index in active then RemoveAll(active, index) else active + [index]
  }

  /** Toggling the same row twice restores which rows are expanded. */
  lemma ToggleActiveSubtaskTwice(active: seq<int>, index: int)
    ensures forall j :: j in ToggleActiveSubtask(ToggleActiveSubtask(active, index), index) <==> j in active
  {
  }
}
