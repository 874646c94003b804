/** The edit screen: the progress slider, the status picker, and the update
    request, full or progress-only. */
module EditTask {

  import opened Wrappers
  import opened Domain
  import opened TaskForm
  import TaskList
  import TaskDetail

  /** The slider's status: 100 or more is completed, above 0 in progress,
      anything else to do. */
  function DeriveStatus(value: int): (st: TaskStatus)
    ensures value >= 100 ==> st == Completed
    ensures 0 < value < 100 ==> st == InProgress
    ensures value <= 0 ==> st == Todo
  {
    if value >= 100 then Completed
    else if value > 0 then InProgress
    else Todo
  }

  /** The derived status never goes back as the slider moves up. */
  lemma DeriveStatusMonotone(a: int, b: int)
    requires a <= b
    ensures DeriveStatus(a) == Completed ==> DeriveStatus(b) == Completed
    ensures DeriveStatus(b) == Todo ==> DeriveStatus(a) == Todo
    ensures DeriveStatus(a) == InProgress ==> DeriveStatus(b) != Todo
  {
  }

  /** The keys of a full update. */
  const FullKeys: set<Key> :=
    {Title, Description, Category, Priority, Status, Progress, StartDate, DueDate}

  /** The edit screen's state for one task. */
  class EditTaskForm {
    const role: Role
    const taskId: int
    const allowProgressOnly: bool
    const fields: Form
    var status: string
    var progress: int

    constructor (t: Task, role: Role, allowProgressOnly: bool)
      ensures this.role == role && taskId == t.id && this.allowProgressOnly == allowProgressOnly
      ensures fresh(fields)
      ensures fields.title == t.title && fields.description == t.description
      ensures fields.category == t.category && fields.newCategory == []
      ensures fields.priority == t.priority && fields.startDate == t.startDate && fields.dueDate == t.dueDate
      ensures fields.assignedTo == Assignees(t) && fields.userSearch == []
      ensures status == t.status && progress == t.progress
    {
      this.role := role;
      taskId := t.id;
      this.allowProgressOnly := allowProgressOnly;
      fields := new Form.FromTask(t);
      status := t.status;
      progress := t.progress;
    }

    /** Moving the slider (0 to 100 in steps of 1) sets the progress and the
        status derived from it. */
    method OnSliderChange(value: int)
      requires 0 <= value <= 100
      modifies this`progress, this`status
      ensures progress == value && status == DeriveStatus(value).Code()
    {
      progress := value;
      if value >= 100 {
        status := Completed.Code();
      } else if value > 0 {
        status := InProgress.Code();
      } else {
        status := Todo.Code();
      }
    }

    /** The status picker sets the status alone: it may then disagree with the progress. */
    method OnStatusChange(st: TaskStatus)
      modifies this`status
      ensures status == st.Code() && progress == old(progress)
    {
      status := st.Code();
    }
  }

  /** The body of a full update: every form field, the category resolved from
      the form (`finalCategory`) and, for an admin only, the assignees as a
      comma-joined id string. */
  function FullBody(e: EditTaskForm, category: string): (body: Payload)
    reads e, e.fields
    ensures e.role == Admin ==> body.Keys == FullKeys + {AssignedTo}
    ensures e.role != Admin ==> body.Keys == FullKeys
    ensures && body[Title] == JString(e.fields.title)
            && body[Description] == JString(e.fields.description)
            && body[Category] == JString(category)
            && body[Priority] == JString(e.fields.priority)
            && body[Status] == JString(e.status)
            && body[Progress] == JInt(e.progress)
            && body[StartDate] == JString(e.fields.startDate)
            && body[DueDate] == JString(e.fields.dueDate)
    ensures e.role == Admin ==> body[AssignedTo] == JString(JoinIds(e.fields.assignedTo))
  {
    var f := e.fields;
    var fields := map[
      Title := JString(f.title),
      Description := JString(f.description),
      Category := JString(category),
      Priority := JString(f.priority),
      Status := JString(e.status),
      Progress := JInt(e.progress),
      StartDate := JString(f.startDate),
      DueDate := JString(f.dueDate)];
    if e.role == Admin then fields[AssignedTo := JString(JoinIds(f.assignedTo))] else fields
  }

  /** The body of a progress-only update: the progress and the status, nothing else. */
  function ProgressBody(e: EditTaskForm): (body: Payload)
    reads e
    ensures body.Keys == {Progress, Status}
    ensures body[Progress] == JInt(e.progress) && body[Status] == JString(e.status)
  {
    map[Progress := JInt(e.progress), Status := JString(e.status)]
  }

  /** `updateTask`: a due date earlier than the start date is refused before
      any request, for progress-only editors too; otherwise the request
      carries the progress-only or the full body. The title is not checked. */
  function UpdateTask(e: EditTaskForm): (r: Result<Payload, FormError>)
    reads e, e.fields
    ensures DueBeforeStart(e.fields.startDate, e.fields.dueDate) ==> r == Err(InvalidDates)
    ensures !DueBeforeStart(e.fields.startDate, e.fields.dueDate) ==>
              r == Ok(if e.allowProgressOnly then ProgressBody(e)
                      else FullBody(e, FinalCategory(e.fields.category, e.fields.newCategory)))
  {
    if DueBeforeStart(e.fields.startDate, e.fields.dueDate) then Err(InvalidDates)
    else if e.allowProgressOnly then Ok(ProgressBody(e))
    else Ok(FullBody(e, FinalCategory(e.fields.category, e.fields.newCategory)))
  }

  /** The assignee string an admin's full update carries reads back as
      exactly the form's ids, in order. */
  lemma FullBodyAssigneesRoundTrip(e: EditTaskForm, category: string)
    requires e.role == Admin
    ensures ParseIdList(FullBody(e, category)[AssignedTo].str) == Some(e.fields.assignedTo)
  {
    IdListRoundTrip(e.fields.assignedTo);
  }

  /** The user id the edit screen hands back to the task list after a save,
      as the screen is written: the id of the task's creator, whoever saved. */
  function ListUserAfterSaveAsWritten(t: Task, actingUserId: int): int {
    t.createdBy
  }

  /** The user id the task list should get back after a save: the acting user's own. */
  function ListUserAfterSave(t: Task, actingUserId: int): int {
    actingUserId
  }

  /** As written, an assignee who saves a task created by someone else comes
      back to a list filtered for the creator: user 7, assigned to task 1 of
      user 3, is then shown task 2 of user 3, which is not theirs, and opening
      task 1 again no longer sends them to the progress-only editor. */
  lemma ListUserAfterSaveAsWrittenLeaks()
    ensures var a := Task(1, "A", "", "", "medium", "todo", 0, "", "", 3, Some([7]), "u3", ["u7"]);
            var b := Task(2, "B", "", "", "medium", "todo", 0, "", "", 3, Some([]), "u3", []);
            var shownAs := ListUserAfterSaveAsWritten(a, 7);
            && TaskList.FilterTasks([a, b], User, shownAs, "", "", "") == Some([a, b])
            && !TaskList.Visible(b, User, 7)
            && TaskDetail.AllowProgressOnly(User, 7, a)
            && !TaskDetail.AllowProgressOnly(User, shownAs, a)
  {
    var a := Task(1, "A", "", "", "medium", "todo", 0, "", "", 3, Some([7]), "u3", ["u7"]);
    var b := Task(2, "B", "", "", "medium", "todo", 0, "", "", 3, Some([]), "u3", []);
    assert [a, b][1..] == [b];
    assert [b][1..] == [];
    assert TaskList.FilterTasks([], User, 3, "", "", "") == Some([]);
    assert [b] + [] == [b];
    assert TaskList.FilterTasks([b], User, 3, "", "", "") == Some([b]);
    assert [a] + [b] == [a, b];
  }

  /** With the acting user's id handed back, the list after a save shows that
      user exactly the tasks they may see, and the editor they get stays the
      one their role allows. */
  lemma ListUserAfterSaveKeepsVisibility(tasks: seq<Task>, t: Task, role: Role, actingUserId: int, x: Task)
    requires TaskList.FilterTasks(tasks, role, ListUserAfterSave(t, actingUserId), "", "", "").Some?
    requires x in TaskList.FilterTasks(tasks, role, ListUserAfterSave(t, actingUserId), "", "", "").value
    ensures TaskList.Visible(x, role, actingUserId)
    ensures TaskDetail.AllowProgressOnly(role, ListUserAfterSave(t, actingUserId), x)
            == TaskDetail.AllowProgressOnly(role, actingUserId, x)
  {
  }
}
