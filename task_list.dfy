/** The task list screen: which fetched tasks the acting user sees under the
    three optional filters, and the category choices offered. */
module TaskList {

  import opened Wrappers
  import opened Seqs
  import opened Domain

  /** An exact-match filter; the empty filter value ("All") matches everything. */
  predicate MatchesFilter(value: string, filter: string) {
    filter == [] || value == filter
  }

  /** The visibility rule: admins see every task, anyone else the tasks they
      created or are assigned to (a missing assignee list assigns no one). */
  predicate Visible(t: Task, role: Role, userId: int) {
    role == Admin || t.createdBy == userId || userId in Assignees(t)
  }

  /** The screen's `assignedMatch`. It reads `task.assignedUserIds.includes`
      only for a non-admin who did not create the task, and that read throws
      when the list is missing: `None` stands for the thrown TypeError. */
  function AssignedMatch(t: Task, role: Role, userId: int): (m: Option<bool>)
    ensures m.Some? ==> m.value == Visible(t, role, userId)
    ensures m.None? <==> role != Admin && t.createdBy != userId && t.assignedUserIds.None?
  {
    if role == Admin then Some(true)
    else if t.createdBy == userId then Some(true)
    else match t.assignedUserIds
      case None => None
      case Some(ids) => Some(userId in ids)
  }

  /** The four ANDed conditions a task must meet to be listed. */
  predicate Passes(t: Task, role: Role, userId: int, status: string, priority: string, category: string) {
    && MatchesFilter(t.status, status)
    && MatchesFilter(t.priority, priority)
    && MatchesFilter(t.category, category)
    && Visible(t, role, userId)
  }

  /** Evaluating the filter on `t` does not throw. */
  predicate Evaluable(t: Task, role: Role, userId: int) {
    AssignedMatch(t, role, userId).Some?
  }

  /** The fetched tasks that pass all four conditions, in their fetched order,
      each kept as often as it was fetched. */
  function Listed(tasks: seq<Task>, role: Role, userId: int,
                  status: string, priority: string, category: string): (r: seq<Task>)
    ensures IsSubsequence(r, tasks)
    ensures forall t :: t in r <==> t in tasks && Passes(t, role, userId, status, priority, category)
    ensures forall t :: multiset(r)[t] ==
                        (if Passes(t, role, userId, status, priority, category) then multiset(tasks)[t] else 0)
    decreases |tasks|
  {
    if tasks == [] then []
    else
      var t := tasks[0];
      var rest := Listed(tasks[1..], role, userId, status, priority, category);
      assert tasks == [t] + tasks[1..];
      assert multiset(tasks) == multiset([t]) + multiset(tasks[1..]);
      if Passes(t, role, userId, status, priority, category) then
        assert ([t] + rest)[1..] == rest;
        assert multiset([t] + rest) == multiset([t]) + multiset(rest);
        [t] + rest
      else rest
  }

  /** `filteredTasks`: `None` when evaluating the filter throws on some task,
      and otherwise the listed tasks. */
  function FilterTasks(tasks: seq<Task>, role: Role, userId: int,
                       status: string, priority: string, category: string): (r: Option<seq<Task>>)
    ensures r.Some? <==> forall i :: 0 <= i < |tasks| ==> Evaluable(tasks[i], role, userId)
    ensures r.Some? ==> r.value == Listed(tasks, role, userId, status, priority, category)
    decreases |tasks|
  {
    if tasks == [] then Some([])
    else
      var t := tasks[0];
      match (AssignedMatch(t, role, userId), FilterTasks(tasks[1..], role, userId, status, priority, category))
      case (Some(assignedMatch), Some(rest)) =>
        var keep := MatchesFilter(t.status, status) && MatchesFilter(t.priority, priority)
                    && MatchesFilter(t.category, category) && assignedMatch;
        assert keep == Passes(t, role, userId, status, priority, category);
        if keep then Some([t] + rest) else Some(rest)
      case (None, _) => None
      case (_, None) => None
  }

  /** An admin never makes the filter throw. */
  lemma AdminAlwaysEvaluable(tasks: seq<Task>, userId: int, status: string, priority: string, category: string)
    ensures FilterTasks(tasks, Admin, userId, status, priority, category).Some?
  {
  }

  /** With every filter empty, an admin is listed every fetched task. */
  lemma {:induction false} AdminUnfilteredListsAll(tasks: seq<Task>, userId: int)
    ensures Listed(tasks, Admin, userId, "", "", "") == tasks
    decreases |tasks|
  {
    if tasks != [] {
      AdminUnfilteredListsAll(tasks[1..], userId);
      assert Passes(tasks[0], Admin, userId, "", "", "");
      assert [tasks[0]] + tasks[1..] == tasks;
    }
  }

  /** For an admin with every filter empty the list is the fetched list. */
  lemma AdminUnfilteredSeesAll(tasks: seq<Task>, userId: int)
    ensures FilterTasks(tasks, Admin, userId, "", "", "") == Some(tasks)
  {
    AdminUnfilteredListsAll(tasks, userId);
  }

  /** A non-admin sees only tasks they created or are assigned to. */
  lemma NonAdminSeesOwnOrAssigned(tasks: seq<Task>, userId: int,
                                  status: string, priority: string, category: string, t: Task)
    requires FilterTasks(tasks, User, userId, status, priority, category).Some?
    requires t in FilterTasks(tasks, User, userId, status, priority, category).value
    ensures t.createdBy == userId || (t.assignedUserIds.Some? && userId in t.assignedUserIds.value)
  {
  }

  /** An empty filter value ("All") imposes no constraint: it matches every
      value, and emptying any one of the three filters keeps every task the
      other conditions keep. */
  lemma EmptyFilterIsNoConstraint(t: Task, role: Role, userId: int, status: string, priority: string, category: string)
    ensures forall v :: MatchesFilter(v, "")
    ensures Passes(t, role, userId, "", priority, category) <==>
            MatchesFilter(t.priority, priority) && MatchesFilter(t.category, category) && Visible(t, role, userId)
    ensures Passes(t, role, userId, status, "", category) <==>
            MatchesFilter(t.status, status) && MatchesFilter(t.category, category) && Visible(t, role, userId)
    ensures Passes(t, role, userId, status, priority, "") <==>
            MatchesFilter(t.status, status) && MatchesFilter(t.priority, priority) && Visible(t, role, userId)
  {
  }

  /** The category column of the fetched tasks. */
  function Column(tasks: seq<Task>): (col: seq<string>)
    ensures |col| == |tasks|
  {
    seq(|tasks|, i requires 0 <= i < |tasks| => tasks[i].category)
  }

  /** `[...new Set(tasks.map(t => t.category).filter(Boolean))]`: each
      non-empty category once, in the order of its first occurrence. */
  function UniqueCategories(tasks: seq<Task>): (r: seq<string>)
    ensures NoDuplicates(r)
    ensures forall c :: c in r <==> c != [] && c in Column(tasks)
    ensures forall i, j :: 0 <= i < j < |r| ==>
              FirstIndex(Column(tasks), r[i]) < FirstIndex(Column(tasks), r[j])
    decreases |tasks|
  {
    if tasks == [] then []
    else
      var n := |tasks| - 1;
      var rest := UniqueCategories(tasks[..n]);
      var c := tasks[n].category;
      var col := Column(tasks);
      assert col[..n] == Column(tasks[..n]);
      assert col == col[..n] + [c];
      if c == [] || c in rest then rest
      else
        var r := rest + [c];
        assert FirstIndex(col, c) == n;
        assert forall x :: x in rest ==> FirstIndex(col, x) == FirstIndex(col[..n], x) < n;
        r
  }
}
