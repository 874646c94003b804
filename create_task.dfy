/** The create screen's submission: validation, then the request body. */
module CreateTask {

  import opened Wrappers
  import opened Text
  import opened Domain
  import opened TaskForm

  /** The keys every create request carries. */
  const CreateKeys: set<Key> := {Title, Description, Category, Priority, StartDate, DueDate}

  /** The body of a create request: the fields as typed, the category
      resolved from the form (`finalCategory`) and, for an admin only, the
      assignees as a comma-joined id string. It never carries a status or a
      progress. */
  function CreateBody(form: Form, role: Role, category: string): (body: Payload)
    reads form
    ensures role == Admin ==> body.Keys == CreateKeys + {AssignedTo}
    ensures role != Admin ==> body.Keys == CreateKeys
    ensures Status !in body && Progress !in body
    ensures && body[Title] == JString(form.title)
            && body[Description] == JString(form.description)
            && body[Category] == JString(category)
            && body[Priority] == JString(form.priority)
            && body[StartDate] == JString(form.startDate)
            && body[DueDate] == JString(form.dueDate)
    ensures role == Admin ==> body[AssignedTo] == JString(JoinIds(form.assignedTo))
  {
    var fields := map[
      Title := JString(form.title),
      Description := JString(form.description),
      Category := JString(category),
      Priority := JString(form.priority),
      StartDate := JString(form.startDate),
      DueDate := JString(form.dueDate)];
    if role == Admin then fields[AssignedTo := JString(JoinIds(form.assignedTo))] else fields
  }

  /** `handleCreate`: a blank title is refused first, then a due date earlier
      than the start date, both before any request; otherwise the request
      carries the create body. */
  function HandleCreate(form: Form, role: Role): (r: Result<Payload, FormError>)
    reads form
    ensures IsBlank(form.title) ==> r == Err(MissingTitle)
    ensures !IsBlank(form.title) && DueBeforeStart(form.startDate, form.dueDate) ==> r == Err(InvalidDates)
    ensures !IsBlank(form.title) && !DueBeforeStart(form.startDate, form.dueDate) ==>
              r == Ok(CreateBody(form, role, FinalCategory(form.category, form.newCategory)))
  {
    if IsBlank(form.title) then Err(MissingTitle)
    else if DueBeforeStart(form.startDate, form.dueDate) then Err(InvalidDates)
    else Ok(CreateBody(form, role, FinalCategory(form.category, form.newCategory)))
  }

  /** A form whose dates were only ever set through the pickers keeps them
      ordered, so its submission is never refused for its dates. */
  lemma OrderedFormPassesDateCheck(form: Form, role: Role)
    requires form.DatesOrdered()
    ensures HandleCreate(form, role) != Err(InvalidDates)
  {
  }

  /** The assignee string an admin's create request carries reads back as
      exactly the ids toggled on, in toggling order. */
  lemma CreateBodyAssigneesRoundTrip(form: Form, category: string)
    ensures ParseIdList(CreateBody(form, Admin, category)[AssignedTo].str) == Some(form.assignedTo)
  {
    IdListRoundTrip(form.assignedTo);
  }
}
