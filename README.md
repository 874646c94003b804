# Lokal task screens: a Dafny model

Lokal is a small task-tracking app. Users and admins create tasks. They assign
tasks to users, track each task's progress and status, and discuss tasks in
comments. This project models the rules that the app's four task screens apply
on the device:

- **Task list** (`TaskList`). It decides which fetched tasks the acting user
  sees under the status, priority and category filters. It also builds the
  category choices and the "Assigned To" line of each card.
- **Task detail** (`TaskDetail`). It decides who may comment and who gets the
  progress-only editor. It controls who may open, edit and delete a comment.
  It also keeps the comment composer's state: the draft, the comment being
  edited, and which comment menus are open.
- **Shared task form** (`TaskForm`). The create and edit screens share it. It
  holds the form fields and the handlers of the two date pickers, which keep
  the due date no earlier than the start date. It also holds the assignee
  toggle, the case-insensitive user search and category resolution.
- **Create** (`CreateTask`) and **edit** (`EditTask`). These cover validation
  before a request and the exact JSON body each request carries. The edit
  screen also has the progress slider, which derives the status.

The other modules support these:

- `Text`: the ECMAScript `trim` whitespace set, ASCII lower-casing, substring
  search, join and split.
- `Decimal`: integers as decimal text.
- `Dates`: RFC 3339 full-dates. Its lemma states section 5.1 of RFC 3339: on
  full-dates, string order is chronological order.
- `Seqs`: subsequences, duplicates and first occurrence.
- `Domain`: the entities, status captions and the comma-joined assignee id
  string, which is proved to read back as the same ids.

The form state that the screens change step by step is modelled as classes:

- `TaskForm.Form`;
- `TaskDetail.CommentComposer`;
- `EditTask.EditTaskForm`.

Their handlers are methods with `modifies` frames. The screens' pure
computations are modelled as functions, with lemmas about them. Examples are
the task filter, the distinct categories, the request bodies and the status
captions.

## Model

| member | source | states |
|---|---|---|
| TaskList.MatchesFilter | Lokal/frontend/screens/TaskListScreen.js:83-85 | `filter ? value === filter : true`: the empty filter ("All") is falsy and matches any value, any other filter only an equal value |
| TaskList.Visible | Lokal/frontend/screens/TaskListScreen.js:86-88 | the visibility rule: admins see every task, anyone else the tasks they created or are assigned to |
| TaskList.Passes | Lokal/frontend/screens/TaskListScreen.js:83-89 | a task passes when its status, priority and category match the filters (an empty filter matches anything) and it is visible |
| TaskList.AssignedMatch | Lokal/frontend/screens/TaskListScreen.js:86-88 | the visibility test yields admin-or-creator-or-assignee, and throws exactly for a non-admin non-creator whose task has no assignee list |
| TaskList.Listed | Lokal/frontend/screens/TaskListScreen.js:82-90 | the tasks that pass, in fetched order; a task is listed iff it was fetched and passes, and each passing task is kept as many times as it was fetched |
| TaskList.FilterTasks | Lokal/frontend/screens/TaskListScreen.js:82-90 | the list is produced exactly when no task makes the test throw, and it is then the listed tasks |
| TaskList.AdminAlwaysEvaluable | Lokal/frontend/screens/TaskListScreen.js:86-88 | an admin's filter never throws |
| TaskList.AdminUnfilteredListsAll | Lokal/frontend/screens/TaskListScreen.js:82-90 | with no filter set, every fetched task is listed for an admin, in order |
| TaskList.AdminUnfilteredSeesAll | Lokal/frontend/screens/TaskListScreen.js:82-90 | with no filter set, an admin sees exactly the fetched list |
| TaskList.NonAdminSeesOwnOrAssigned | Lokal/frontend/screens/TaskListScreen.js:86-88 | every task a non-admin sees was created by them or lists them as assignee |
| TaskList.EmptyFilterIsNoConstraint | Lokal/frontend/screens/TaskListScreen.js:83-89 | the empty filter matches every value, and emptying the status, priority or category filter leaves only the other conditions |
| TaskList.UniqueCategories | Lokal/frontend/screens/TaskListScreen.js:27 | the non-empty categories of the fetched tasks, each once, ordered by first occurrence |
| Domain.Assignees | Lokal/frontend/screens/EditTaskScreen.js:24 | `task.assignedUserIds || []`: a missing assignee list reads as the empty list |
| Domain.KeyNamesDistinct | Lokal/frontend/screens/CreateTaskScreen.js:81-89 | two body keys have the same JSON name iff they are the same key, so a body names each field once |
| Domain.FriendlyStatus | Lokal/frontend/screens/TaskListScreen.js:55-62 | the three status codes get their captions; any other value is shown unchanged |
| Domain.FriendlyStatusDistinct | Lokal/frontend/screens/TaskDetailScreen.js:123-130 | the three captions differ from each other and from every status code |
| Domain.AssignedDisplay | Lokal/frontend/screens/TaskListScreen.js:93-95 | "N/A" for no assignees, else the names joined by ", " |
| Domain.AssignedDisplayShowsAll | Lokal/frontend/screens/TaskDetailScreen.js:138-140 | every assigned user's name appears in the line |
| Domain.JoinIds | Lokal/frontend/screens/CreateTaskScreen.js:88 | the assignee ids in decimal, joined with "," |
| Domain.IdListRoundTrip | Lokal/frontend/screens/CreateTaskScreen.js:88 | the comma-joined id string reads back as exactly the ids, in order |
| TaskDetail.CanComment | Lokal/frontend/screens/TaskDetailScreen.js:20 | admins, the task's creator, and users in a present assignee list may comment |
| TaskDetail.AllowProgressOnly | Lokal/frontend/screens/TaskDetailScreen.js:96 | the progress-only editor is for users who are neither admin nor the task's creator |
| TaskDetail.OffersTaskDelete | Lokal/frontend/screens/TaskDetailScreen.js:160 | "Delete Task" is offered to admins only |
| TaskDetail.CanOpenCommentMenu | Lokal/frontend/screens/TaskDetailScreen.js:195 | a long-press opens a comment's menu for its author or an admin |
| TaskDetail.OffersEdit | Lokal/frontend/screens/TaskDetailScreen.js:204 | "Edit" is offered to the comment's author only |
| TaskDetail.OffersDelete | Lokal/frontend/screens/TaskDetailScreen.js:213 | "Delete" is offered to admins and to the comment's author |
| TaskDetail.CommentersAreViewers | Lokal/frontend/screens/TaskDetailScreen.js:20 | a user may comment iff the task list shows them the task |
| TaskDetail.ProgressOnlyIsForAssignees | Lokal/frontend/screens/TaskDetailScreen.js:96 | admins and creators never get the progress-only editor; a commenter who gets it is an assignee |
| TaskDetail.TaskDeletersEditFully | Lokal/frontend/screens/TaskDetailScreen.js:160 | whoever is offered "Delete Task" may comment and gets the full editor |
| TaskDetail.AdminCannotEditOthers | Lokal/frontend/screens/TaskDetailScreen.js:204-217 | an admin is offered delete but not edit on another user's comment |
| TaskDetail.EditImpliesDelete | Lokal/frontend/screens/TaskDetailScreen.js:195-217 | whoever may edit may delete, and the menu opens exactly for those who may delete |
| TaskDetail.CommentComposer.IsEditing | Lokal/frontend/screens/TaskDetailScreen.js:40 | `if (editingCommentId)`: an edit is under way iff an id is set and it is not 0, which JavaScript treats as false |
| TaskDetail.CommentComposer.MenuOpen | Lokal/frontend/screens/TaskDetailScreen.js:196-202 | `commentMenu[item.id]` is truthy: a comment with no entry, or an entry set to false, has its menu closed |
| TaskDetail.CommentComposer.constructor | Lokal/frontend/screens/TaskDetailScreen.js:12-16 | empty draft, no comment being edited, no menu open, no error |
| TaskDetail.CommentComposer.SubmitComment | Lokal/frontend/screens/TaskDetailScreen.js:37-55 | a blank draft sends nothing and changes nothing; otherwise PUT to the edited comment when its id is truthy, else POST to the task, with the draft as typed; so an edit of comment id 0 is POSTed as a new comment, and on success that id stays set; success clears the draft and ends a PUT edit; failure sets only the error |
| TaskDetail.CommentComposer.LongPress | Lokal/frontend/screens/TaskDetailScreen.js:193-198 | for the author or an admin, flips only that comment's menu flag; no other state changes |
| TaskDetail.CommentComposer.ChooseEdit | Lokal/frontend/screens/TaskDetailScreen.js:204-212 | offered only on an open menu to the author; loads the comment's text, marks it as edited, closes its menu |
| TaskDetail.CommentComposer.ChooseDelete | Lokal/frontend/screens/TaskDetailScreen.js:57-73 | a DELETE for that comment goes out iff its menu is open, the user is admin or author, and they confirm; failure sets the delete error |
| TaskForm.AlertIdentifiesError | Lokal/frontend/screens/CreateTaskScreen.js:68-76 | the two refusals raise different alert titles and different alert messages |
| TaskForm.DueBeforeStart | Lokal/frontend/screens/CreateTaskScreen.js:73 | a submission is refused for its dates when both are set and the due date is earlier than the start date |
| TaskForm.DueBeforeStartExample | Lokal/frontend/screens/CreateTaskScreen.js:73-76 | a due date before the start date is caught; ordered or unset dates are not |
| TaskForm.Toggled | Lokal/frontend/screens/CreateTaskScreen.js:55-61 | an assigned id is removed wherever it occurs, and every other id keeps its place and its number of copies; an unassigned id is appended |
| TaskForm.Without | Lokal/frontend/screens/EditTaskScreen.js:38 | keeps, in order, every copy of every id other than the one removed, and no copy of that one |
| TaskForm.ToggleTwiceRestores | Lokal/frontend/screens/EditTaskScreen.js:36-40 | toggling an unassigned user twice restores the list |
| TaskForm.FinalCategory | Lokal/frontend/screens/EditTaskScreen.js:70 | the trimmed new-category text when it is not blank, else the selected category |
| TaskForm.FinalCategoryResolves | Lokal/frontend/screens/EditTaskScreen.js:70 | blank new-category text keeps the selected category; otherwise the sent category is the trimmed text, non-empty with no outer whitespace |
| TaskForm.NewCategoryWins | Lokal/frontend/screens/CreateTaskScreen.js:79 | a typed category overrides the selected one |
| TaskForm.FilterUsers | Lokal/frontend/screens/CreateTaskScreen.js:63-65 | in order, the users whose lower-cased name contains the lower-cased search, each kept as many times as it occurs |
| TaskForm.EmptySearchKeepsAll | Lokal/frontend/screens/EditTaskScreen.js:117-119 | an empty search lists every user |
| TaskForm.SearchIgnoresCase | Lokal/frontend/screens/CreateTaskScreen.js:64 | lower-casing the search text does not change the result |
| TaskForm.Form.Blank | Lokal/frontend/screens/CreateTaskScreen.js:13-23 | the create form starts empty with priority "medium", and its dates are ordered |
| TaskForm.Form.FromTask | Lokal/frontend/screens/EditTaskScreen.js:14-26 | the edit form starts from the task's values, with a missing assignee list read as empty |
| TaskForm.Form.OnStartDateChange | Lokal/frontend/screens/CreateTaskScreen.js:32-41 | dismiss changes nothing; a picked day becomes the start date and clears an earlier due date; afterwards the dates are ordered |
| TaskForm.Form.OnDueDateChange | Lokal/frontend/screens/CreateTaskScreen.js:43-53 | a picked day earlier than the start date raises the submission's date alert (`InvalidDates`) and changes nothing; else it becomes the due date; ordered dates stay ordered |
| TaskForm.Form.ToggleUserAssignment | Lokal/frontend/screens/EditTaskScreen.js:36-40 | the assignee list becomes its toggle; the id is assigned afterwards iff it was not before |
| CreateTask.CreateBody | Lokal/frontend/screens/CreateTaskScreen.js:79-89 | six fields with the category resolved from the form; the assignee string only for an admin; never a status or progress |
| CreateTask.HandleCreate | Lokal/frontend/screens/CreateTaskScreen.js:67-89 | a blank title is refused first, then a due date before the start date; otherwise the create body is sent, with `finalCategory` as its category |
| CreateTask.OrderedFormPassesDateCheck | Lokal/frontend/screens/CreateTaskScreen.js:73-76 | a form whose dates are ordered is never refused for its dates |
| CreateTask.CreateBodyAssigneesRoundTrip | Lokal/frontend/screens/CreateTaskScreen.js:88 | an admin's assignee string reads back as the toggled ids |
| EditTask.DeriveStatus | Lokal/frontend/screens/EditTaskScreen.js:225-230 | 100 or more is completed, above 0 in progress, otherwise to do |
| EditTask.DeriveStatusMonotone | Lokal/frontend/screens/EditTaskScreen.js:225-230 | more progress never moves the derived status backwards |
| EditTask.EditTaskForm.constructor | Lokal/frontend/screens/EditTaskScreen.js:12-24 | the edit state starts from the task, with its status and progress |
| EditTask.EditTaskForm.OnSliderChange | Lokal/frontend/screens/EditTaskScreen.js:219-230 | sets the progress and the status derived from it |
| EditTask.EditTaskForm.OnStatusChange | Lokal/frontend/screens/EditTaskScreen.js:208-216 | sets the status and leaves the progress alone |
| EditTask.FullBody | Lokal/frontend/screens/EditTaskScreen.js:74-84 | eight fields with the category resolved from the form, plus the assignee string for an admin only |
| EditTask.ProgressBody | Lokal/frontend/screens/EditTaskScreen.js:72-73 | exactly the progress and the status |
| EditTask.UpdateTask | Lokal/frontend/screens/EditTaskScreen.js:63-84 | a due date before the start date is refused for every editor; otherwise the progress-only or the full body is sent; the title is not checked |
| EditTask.FullBodyAssigneesRoundTrip | Lokal/frontend/screens/EditTaskScreen.js:83 | an admin's assignee string reads back as the form's ids |
| EditTask.ListUserAfterSaveAsWritten | Lokal/frontend/screens/EditTaskScreen.js:93 | as written, the list is reopened with the task creator's id, whoever saved |
| EditTask.ListUserAfterSave | Lokal/frontend/screens/EditTaskScreen.js:93 | corrected: the list is reopened with the acting user's own id |
| EditTask.ListUserAfterSaveAsWrittenLeaks | Lokal/frontend/screens/EditTaskScreen.js:93 | as written, after an assignee saves, the list shows them a task they may not see, and the editor choice follows the creator |
| EditTask.ListUserAfterSaveKeepsVisibility | Lokal/frontend/screens/EditTaskScreen.js:93 | with the acting user's id handed back, every listed task is visible to that user |
| Text.IsBlank | Lokal/frontend/screens/TaskDetailScreen.js:38 | `!s.trim()`: a text is blank iff trimming leaves the empty string, the only falsy string |
| Text.Trim | Lokal/frontend/screens/TaskDetailScreen.js:38 | the result is empty iff the text is all whitespace; otherwise neither end is whitespace |
| Text.TrimCutsOuterWhitespace | Lokal/frontend/screens/EditTaskScreen.js:70 | the trimmed text is a slice of the text with only whitespace cut off before and after it |
| Text.TrimIdempotent | Lokal/frontend/screens/EditTaskScreen.js:70 | trimming twice is trimming once |
| Text.Contains | Lokal/frontend/screens/CreateTaskScreen.js:64 | `hay.includes(needle)`: the needle is a prefix of some suffix of the text |
| Text.Lower | Lokal/frontend/screens/CreateTaskScreen.js:64 | `toLowerCase()` on ASCII letters: the same length, each letter lower-cased |
| Text.Join | Lokal/frontend/screens/TaskListScreen.js:94 | `parts.join(sep)`: the parts in order with the separator between neighbours, and the empty string for no parts |
| Decimal.IntToString | Lokal/frontend/screens/CreateTaskScreen.js:88 | `String(n)` of an id: an optional minus sign then decimal digits, never empty |
| Text.ContainsAtOffset | Lokal/frontend/screens/CreateTaskScreen.js:64 | `includes` holds iff the needle occurs at some offset |
| Dates.Format | Lokal/frontend/screens/CreateTaskScreen.js:35 | a picked day as `YYYY-MM-DD`, ten characters |
| Dates.FormatThenParse | Lokal/frontend/screens/CreateTaskScreen.js:35 | the picked day's `YYYY-MM-DD` text is a full-date naming that day |
| Dates.Earlier | Lokal/frontend/screens/CreateTaskScreen.js:48 | `new Date(a) < new Date(b)`: both strings are full-dates and the first names an earlier day; false otherwise, as with an invalid date |
| Dates.EarlierIsLexLess | Lokal/frontend/screens/CreateTaskScreen.js:73 | on full-dates, the date comparison is string order (section 5.1 of RFC 3339) |
| Dates.EarlierTotal | Lokal/frontend/screens/EditTaskScreen.js:56 | two full-dates, neither earlier, are the same date |
| Dates.EarlierStrictOrder | Lokal/frontend/screens/EditTaskScreen.js:47 | the date comparison is irreflexive and transitive |

## Findings

| source | as written | input that shows it | evidently intended | confidence | as-written member | corrected member |
|---|---|---|---|---|---|---|
| Lokal/frontend/screens/EditTaskScreen.js:93 | after a save, the task list is reopened with `userId: task.createdBy` | user 7 (role user) is assigned to task 1, created by user 3. User 3 also created task 2. User 7 saves task 1. | the list should reopen for the acting user's own id | high, not executed | EditTask.ListUserAfterSaveAsWritten, EditTask.ListUserAfterSaveAsWrittenLeaks | EditTask.ListUserAfterSave, EditTask.ListUserAfterSaveKeepsVisibility |

In this example the list then filters for user 3, so user 7 sees task 2.
Opening task 1 again also computes the progress-only flag for user 3, so
user 7 gets the full editor.

## Left out

- HTTP requests, their tokens and headers, and navigation are not modelled. Each
  request is modelled as the request value or body that would be sent. Success
  or failure is a parameter (`succeeded`). The only navigation modelled is the
  user id handed back after an edit, for the finding above.
- Fetching tasks, comments, categories and users is left out. The fetched data
  is a parameter. The screens' loading and `isSaving` flags, and the error text
  set when a fetch fails, are left out.
- `Alert` dialogs are modelled by their result. The validation functions return
  a `FormError` with the alert's title and message. A delete confirmation is
  the `confirmed` parameter.
- Rendering is not modelled: JSX, the colour helpers `priorityBorderColor` and
  `statusBackgroundColor`, priority capitalisation, `formatDate`, and the
  "Creator"/"Description" fallbacks.
- Opening and closing the task menu and the date pickers, and the pickers'
  `minimumDate`, are left out. A picked day is a `Dates.Date`. Its
  `toISOString().split('T')[0]` text is modelled as the day's `YYYY-MM-DD`
  form, so time zones are not modelled.
- Dates.Earlier: JavaScript `Date` parsing is modelled for RFC 3339 full-dates
  only. Any other string, including a full timestamp a backend might return,
  counts as an invalid date, and every comparison with it is false.
- Text.Lower: only ASCII letters are lower-cased. JavaScript's full Unicode
  `toLowerCase` is not modelled.
- Text.LexLess compares code points, not JavaScript's UTF-16 code units. The
  two agree on the digit strings it is used for.
- Numbers are unbounded integers. Progress is an integer: the slider's step
  is 1. JavaScript number precision is not modelled.
- Fetched tasks are assumed well formed.
  - Text fields and `assignedUsernames` are always present.
  - `assignedUserIds` may be missing (`Option`); both its uses follow the
    source: the list filter throws, and the detail and edit screens read it as
    empty.
- TaskForm.FinalCategory has no contract of its own. Its properties are stated
  by `TaskForm.FinalCategoryResolves`.
- The status a user picks is not claimed to agree with the progress. The
  source lets them differ (`EditTask.EditTaskForm.OnStatusChange`).
- The screens' `error` state is modelled only for the comment composer.
- After a comment is saved or deleted, the detail screen refetches the comments
  (TaskDetailScreen.js:51 and :66). That fetch sets `error` to `''` or to
  "Failed to load comments." once it finishes. `SubmitComment` and
  `ChooseDelete` leave `error` unchanged on success: their contracts describe
  the state before that fetch ends.
- The "Edit Task" menu item is offered to everyone who can open the task. That
  is not modelled, because the item itself has no condition.
- Handing a user id back to the list after create is not modelled. The create
  screen passes none, and what the list then receives depends on the
  navigation library.
- The login, register and comment screens and the app's navigator
  (`App.js`) are not part of this model.
