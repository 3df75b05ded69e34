/**
 * The state of the TaskManagementTable component and its event handlers.
 *
 * Each `useState` hook becomes a field. A handler either applies an updater
 * to `tableData` or `activeSubtasks`, or sets the dialog's fields to plain
 * values, in one step (React's scheduling and batching are not modelled), so
 * a handler is a method that reassigns the fields it sets and leaves the
 * others alone.
 */
module TaskManagementComponent {
  import TM = TaskManagement

  class TaskManagementTable {
    var tableData: seq<TM.Task>
    var activeSubtasks: seq<int>
    var isModalOpen: bool
    var currentTaskId: TM.Option<int>
    var formData: TM.TaskFormData

    /**
     * What the handlers keep true once it holds: every task's
     * `selectedSubtasks` agrees with its subtasks, no row index is expanded
     * twice, and the form's status is "IN-PROGRESS" (the form starts and is
     * reset with that status, and none of its field edits sets it).
     */
    ghost predicate Valid()
      reads this
    {
      && TM.AllConsistent(tableData)
      && TM.Distinct(activeSubtasks)
      && formData.status == TM.InProgress
    }

    /** Mounting the component with the seed list `taskData`. */
    constructor (taskData: seq<TM.Task>)
      ensures tableData == taskData
      ensures activeSubtasks == [] && !isModalOpen && currentTaskId == TM.None
      ensures formData == TM.InitialFormData
      ensures TM.AllConsistent(taskData) ==> Valid()
    {
      tableData := taskData;
      activeSubtasks := [];
      isModalOpen := false;
      currentTaskId := TM.None;
      formData := TM.InitialFormData;
    }

    /** The chevron of row `index`. */
    method ToggleActiveSubtask(index: int)
      modifies this
      ensures activeSubtasks == TM.ToggleActiveSubtask(old(activeSubtasks), index)
      ensures tableData == old(tableData) && isModalOpen == old(isModalOpen)
      ensures currentTaskId == old(currentTaskId) && formData == old(formData)
      ensures old(Valid()) ==> Valid()
    {
      activeSubtasks := TM.ToggleActiveSubtask(activeSubtasks, index);
    }

    /** The checkbox of subtask `subtaskId` under task `taskId`. */
    method ToggleSubtask(taskId: int, subtaskId: int)
      modifies this
      ensures tableData == TM.ToggleSubtask(old(tableData), taskId, subtaskId)
      ensures activeSubtasks == old(activeSubtasks) && isModalOpen == old(isModalOpen)
      ensures currentTaskId == old(currentTaskId) && formData == old(formData)
      ensures old(Valid()) ==> Valid()
    {
      tableData := TM.ToggleSubtask(tableData, taskId, subtaskId);
    }

    /** The "Mark as completed" button of task `taskId`. */
    method MarkAsCompleted(taskId: int)
      modifies this
      ensures tableData == TM.MarkAsCompleted(old(tableData), taskId)
      ensures activeSubtasks == old(activeSubtasks) && isModalOpen == old(isModalOpen)
      ensures currentTaskId == old(currentTaskId) && formData == old(formData)
      ensures old(Valid()) ==> Valid()
    {
      tableData := TM.MarkAsCompleted(tableData, taskId);
    }

    /** The status select of subtask `subtaskId` under task `taskId`. */
    method UpdateSubtaskStatus(taskId: int, subtaskId: int, newStatus: TM.Status)
      modifies this
      ensures tableData == TM.UpdateSubtaskStatus(old(tableData), taskId, subtaskId, newStatus)
      ensures activeSubtasks == old(activeSubtasks) && isModalOpen == old(isModalOpen)
      ensures currentTaskId == old(currentTaskId) && formData == old(formData)
      ensures old(Valid()) ==> Valid()
    {
      tableData := TM.UpdateSubtaskStatus(tableData, taskId, subtaskId, newStatus);
    }

    /** The priority select of subtask `subtaskId` under task `taskId`. */
    method UpdateSubtaskPriority(taskId: int, subtaskId: int, newPriority: TM.Priority)
      modifies this
      ensures tableData == TM.UpdateSubtaskPriority(old(tableData), taskId, subtaskId, newPriority)
      ensures activeSubtasks == old(activeSubtasks) && isModalOpen == old(isModalOpen)
      ensures currentTaskId == old(currentTaskId) && formData == old(formData)
      ensures old(Valid()) ==> Valid()
    {
      tableData := TM.UpdateSubtaskPriority(tableData, taskId, subtaskId, newPriority);
    }

    /** The "Add Subtask" trigger under task `taskId`: targets it and opens the dialog. */
    method OpenAddSubtaskDialog(taskId: int)
      modifies this
      ensures currentTaskId == TM.Some(taskId) && isModalOpen
      ensures tableData == old(tableData) && activeSubtasks == old(activeSubtasks)
      ensures formData == old(formData)
      ensures old(Valid()) ==> Valid()
    {
      currentTaskId := TM.Some(taskId);
      isModalOpen := true;
    }

    /**
     * The dialog's submit button. `freshId` stands for the `Date.now()` the
     * new subtask's id is read from. Nothing happens unless a task is
     * targeted and the form has a name; otherwise the subtask is appended to
     * the targeted task, the dialog closes and the form is reset. From a valid
     * state the new subtask is "IN-PROGRESS".
     */
    method HandleAddSubtask(freshId: int)
      modifies this
      ensures old(currentTaskId).None? || old(formData).name == "" ==>
        tableData == old(tableData) && isModalOpen == old(isModalOpen) && formData == old(formData)
      ensures old(currentTaskId).Some? && old(formData).name != "" ==>
        && tableData == TM.AddSubtask(old(tableData), old(currentTaskId).value, old(formData), freshId)
        && !isModalOpen
        && formData == TM.InitialFormData
      ensures activeSubtasks == old(activeSubtasks) && currentTaskId == old(currentTaskId)
      ensures old(Valid()) ==> Valid()
      ensures old(Valid()) && old(currentTaskId).Some? && old(formData).name != "" ==>
        forall i :: 0 <= i < |tableData| && old(tableData)[i].id == old(currentTaskId).value ==>
          tableData[i].subTasksList[|old(tableData)[i].subTasksList|].status == TM.InProgress
    {
      if currentTaskId.None? || formData.name == "" {
        return;
      }
      tableData := TM.AddSubtask(tableData, currentTaskId.value, formData, freshId);
      isModalOpen := false;
      formData := TM.InitialFormData;
    }

    /**
     * The dialog's own `onOpenChange(false)`, when it is dismissed other than
     * by the cancel button: it closes, but the form keeps its draft and the
     * target task stays, so reopening it shows the old draft.
     */
    method DismissDialog()
      modifies this
      ensures !isModalOpen
      ensures tableData == old(tableData) && activeSubtasks == old(activeSubtasks)
      ensures currentTaskId == old(currentTaskId) && formData == old(formData)
      ensures old(Valid()) ==> Valid()
    {
      isModalOpen := false;
    }

    /** The dialog's cancel button: close it and discard the form. */
    method CancelAddSubtask()
      modifies this
      ensures !isModalOpen && formData == TM.InitialFormData
      ensures tableData == old(tableData) && activeSubtasks == old(activeSubtasks)
      ensures currentTaskId == old(currentTaskId)
      ensures old(Valid()) ==> Valid()
    {
      isModalOpen := false;
      formData := TM.InitialFormData;
    }
  }
}
