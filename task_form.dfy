/** The task form the create and edit screens share: the fields, the two date
    pickers' handlers, the assignee toggle, category resolution, the user
    search, and the date check made before anything is sent. */
module TaskForm {

  import opened Wrappers
  import opened Text
  import opened Seqs
  import opened Dates
  import opened Domain

  /** What a date picker reports: the user dismissed it, or set a day. */
  datatype PickerEvent = Dismissed | Picked(date: Date)

  /** The two checks that stop a submission before any request, with the
      alert each raises. */
  datatype FormError = MissingTitle | InvalidDates {

    function AlertTitle(): string {
      match this
      case MissingTitle => "Missing Title"
      case InvalidDates => "Invalid Dates"
    }

    function AlertMessage(): string {
      match this
      case MissingTitle => "Please enter a task title."
      case InvalidDates => "Due date cannot be earlier than start date."
    }
  }

  /** Each check raises its own alert: the title and the message each tell
      which check refused the submission. */
  lemma AlertIdentifiesError(a: FormError, b: FormError)
    ensures a.AlertTitle() == b.AlertTitle() <==> a == b
    ensures a.AlertMessage() == b.AlertMessage() <==> a == b
  {
  }

  /** The check both screens make before a request: both dates set and the due
      date earlier than the start date. */
  predicate DueBeforeStart(startDate: string, dueDate: string) {
    startDate != [] && dueDate != [] && Earlier(dueDate, startDate)
  }

  /** A start date of 10 January 2024 with a due date of 5 January 2024 fails
      the check; the dates the other way round, or a missing start date, pass. */
  lemma DueBeforeStartExample()
    ensures var jan10, jan5 := Format(Date(2024, 1, 10)), Format(Date(2024, 1, 5));
            && DueBeforeStart(jan10, jan5)
            && !DueBeforeStart(jan5, jan10)
            && !DueBeforeStart("", jan5)
  {
    FormatThenParse(Date(2024, 1, 10));
    FormatThenParse(Date(2024, 1, 5));
  }

  /** `toggleUserAssignment`: a present id is removed everywhere it occurs, an
      absent one is appended. */
  function Toggled(ids: seq<int>, id: int): (r: seq<int>)
    ensures id in ids ==> id !in r && IsSubsequence(r, ids)
    ensures id in ids ==> forall x :: x in r <==> x in ids && x != id
    ensures id in ids ==> forall x :: multiset(r)[x] == if x == id then 0 else multiset(ids)[x]
    ensures id !in ids ==> r == ids + [id]
  {
    if id in ids then Without(ids, id) else ids + [id]
  }

  /** `ids.filter(x => x !== id)`. */
  function Without(ids: seq<int>, id: int): (r: seq<int>)
    ensures IsSubsequence(r, ids)
    ensures forall x :: x in r <==> x in ids && x != id
    ensures forall x :: multiset(r)[x] == if x == id then 0 else multiset(ids)[x]
    decreases |ids|
  {
    if ids == [] then []
    else
      var rest := Without(ids[1..], id);
      assert ids == [ids[0]] + ids[1..];
      if ids[0] == id then rest
      else
        assert ([ids[0]] + rest)[1..] == rest;
        [ids[0]] + rest
  }

  lemma {:induction false} WithoutAbsent(ids: seq<int>, id: int)
    requires id !in ids
    ensures Without(ids, id) == ids
    decreases |ids|
  {
    if ids != [] {
      WithoutAbsent(ids[1..], id);
      assert [ids[0]] + ids[1..] == ids;
    }
  }

  lemma {:induction false} WithoutAppended(ids: seq<int>, id: int)
    ensures Without(ids + [id], id) == Without(ids, id)
    decreases |ids|
  {
    if ids == [] {
      assert ([id])[1..] == [];
    } else {
      assert (ids + [id])[1..] == ids[1..] + [id];
      WithoutAppended(ids[1..], id);
    }
  }

  /** Toggling an absent id twice gives back the original list. */
  lemma ToggleTwiceRestores(ids: seq<int>, id: int)
    requires id !in ids
    ensures Toggled(Toggled(ids, id), id) == ids
  {
    WithoutAppended(ids, id);
    WithoutAbsent(ids, id);
  }

  /** `finalCategory`: new-category text that is not blank overrides the
      selected category, and is sent trimmed. */
  function FinalCategory(category: string, newCategory: string): string {
    var trimmed := Trim(newCategory);
    if trimmed != [] then trimmed else category
  }

  /** The selected category is sent exactly when the new-category text is
      blank; otherwise what is sent is non-empty, has no whitespace at either
      end, and trims to what the new-category text trims to. */
  lemma FinalCategoryResolves(category: string, newCategory: string)
    ensures IsBlank(newCategory) ==> FinalCategory(category, newCategory) == category
    ensures !IsBlank(newCategory) ==>
              var r := FinalCategory(category, newCategory);
              r != [] && !IsWhitespace(r[0]) && !IsWhitespace(r[|r| - 1]) && Trim(r) == Trim(newCategory)
  {
    TrimIdempotent(newCategory);
  }

  /** A selected "Work" and a typed "Urgent" resolve to "Urgent". */
  lemma NewCategoryWins()
    ensures FinalCategory("Work", "Urgent") == "Urgent"
  {
    assert LeadingWhitespace("Urgent") == 0 && TrailingWhitespace("Urgent") == 0;
    assert "Urgent"[0..6] == "Urgent";
  }

  /** `filteredUsers`: in order, the users whose lower-cased name contains the
      lower-cased search text. */
  function FilterUsers(users: seq<Account>, search: string): (r: seq<Account>)
    ensures IsSubsequence(r, users)
    ensures forall u :: u in r <==> u in users && Contains(Lower(u.username), Lower(search))
    ensures forall u :: multiset(r)[u] ==
                        (if Contains(Lower(u.username), Lower(search)) then multiset(users)[u] else 0)
    decreases |users|
  {
    if users == [] then []
    else
      var rest := FilterUsers(users[1..], search);
      assert users == [users[0]] + users[1..];
      if Contains(Lower(users[0].username), Lower(search)) then
        assert ([users[0]] + rest)[1..] == rest;
        [users[0]] + rest
      else rest
  }

  /** An empty search keeps every user. */
  lemma {:induction false} EmptySearchKeepsAll(users: seq<Account>)
    ensures FilterUsers(users, "") == users
    decreases |users|
  {
    if users != [] {
      ContainsEmpty(Lower(users[0].username));
      EmptySearchKeepsAll(users[1..]);
      assert [users[0]] + users[1..] == users;
    }
  }

  /** The search ignores the case of ASCII letters in the search text. */
  lemma {:induction false} SearchIgnoresCase(users: seq<Account>, search: string)
    ensures FilterUsers(users, Lower(search)) == FilterUsers(users, search)
    decreases |users|
  {
    LowerIdempotent(search);
    if users != [] {
      SearchIgnoresCase(users[1..], search);
    }
  }

  /** The fields of a task form, as the screen holds them in component state.
      An empty date string means no date is set. */
  class Form {
    var title: string
    var description: string
    var category: string
    var newCategory: string
    var priority: string
    var startDate: string
    var dueDate: string
    var assignedTo: seq<int>
    var userSearch: string

    /** The create screen's initial state. */
    constructor Blank()
      ensures title == [] && description == [] && category == [] && newCategory == []
      ensures priority == "medium" && startDate == [] && dueDate == []
      ensures assignedTo == [] && userSearch == []
      ensures DatesOrdered()
    {
      title, description, category, newCategory := [], [], [], [];
      priority := "medium";
      startDate, dueDate := [], [];
      assignedTo := [];
      userSearch := [];
    }

    /** The edit screen's initial state: the task's own values, no new
        category, and its assignees (none when the list is missing). */
    constructor FromTask(t: Task)
      ensures title == t.title && description == t.description && category == t.category
      ensures priority == t.priority && startDate == t.startDate && dueDate == t.dueDate
      ensures newCategory == [] && assignedTo == Assignees(t) && userSearch == []
    {
      title, description, category := t.title, t.description, t.category;
      newCategory := [];
      priority := t.priority;
      startDate, dueDate := t.startDate, t.dueDate;
      assignedTo := Assignees(t);
      userSearch := [];
    }

    /** The due date, when set, is not earlier than the start date, when set. */
    predicate DatesOrdered()
      reads this
    {
      !DueBeforeStart(startDate, dueDate)
    }

    /** `onStartDateChange`: a picked day becomes the start date, and a due
        date earlier than it is cleared; a dismissed picker changes nothing. */
    method OnStartDateChange(event: PickerEvent)
      requires event.Picked? ==> ValidDate(event.date)
      modifies this`startDate, this`dueDate
      ensures event.Dismissed? ==> startDate == old(startDate) && dueDate == old(dueDate)
      ensures event.Picked? ==> startDate == Format(event.date)
      ensures event.Picked? ==> dueDate == if Earlier(old(dueDate), startDate) then [] else old(dueDate)
      ensures event.Picked? ==> DatesOrdered()
      ensures old(DatesOrdered()) ==> DatesOrdered()
    {
      if event.Dismissed? {
        return;
      }
      var isoDate := Format(event.date);
      startDate := isoDate;
      if dueDate != [] && Earlier(dueDate, isoDate) {
        dueDate := [];
      }
    }

    /** `onDueDateChange`: a picked day earlier than the start date is refused
        with the submission check's date alert and changes nothing; otherwise
        it becomes the due date. */
    method OnDueDateChange(event: PickerEvent) returns (alert: Option<FormError>)
      requires event.Picked? ==> ValidDate(event.date)
      modifies this`dueDate
      ensures alert.Some? <==> event.Picked? && DueBeforeStart(startDate, Format(event.date))
      ensures alert.Some? ==> alert.value == InvalidDates
      ensures event.Dismissed? || alert.Some? ==> dueDate == old(dueDate)
      ensures event.Picked? && alert.None? ==> dueDate == Format(event.date) && DatesOrdered()
      ensures old(DatesOrdered()) ==> DatesOrdered()
    {
      alert := None;
      if event.Dismissed? {
        return;
      }
      var isoDate := Format(event.date);
      if startDate != [] && Earlier(isoDate, startDate) {
        alert := Some(InvalidDates);
        return;
      }
      dueDate := isoDate;
    }

    /** Pressing a user in the assignee list. */
    method ToggleUserAssignment(id: int)
      modifies this`assignedTo
      ensures assignedTo == Toggled(old(assignedTo), id)
      ensures id in assignedTo <==> id !in old(assignedTo)
    {
      assignedTo := Toggled(assignedTo, id);
    }
  }
}
