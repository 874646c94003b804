/** The records the screens receive from the backend and send back to it,
    and the display and wire helpers more than one screen shares. */
module Domain {

  import opened Wrappers
  import opened Text
  import opened Decimal

  /** The acting user's role; every role other than `admin` is treated alike. */
  datatype Role = Admin | User

  /** The three statuses the status picker and the progress slider produce. */
  datatype TaskStatus = Todo | InProgress | Completed {

    /** The string the backend stores. */
    function Code(): string {
      match this
      case Todo => "todo"
      case InProgress => "in_progress"
      case Completed => "completed"
    }
  }

  /** A task as the backend returns it. Text fields the backend leaves out are
      the empty string; `assignedUserIds` may be missing altogether. */
  datatype Task = Task(
    id: int,
    title: string,
    description: string,
    category: string,
    priority: string,
    status: string,
    progress: int,
    startDate: string,
    dueDate: string,
    createdBy: int,
    assignedUserIds: Option<seq<int>>,
    createdByUsername: string,
    assignedUsernames: seq<string>)

  /** A comment on a task, with its author's identity. */
  datatype Comment = Comment(id: int, taskId: int, userId: int, username: string, text: string, createdAt: string)

  /** An entry of the user list an admin assigns tasks from. */
  datatype Account = Account(id: int, username: string, role: string)

  /** The values a request body carries. */
  datatype Json = JString(str: string) | JInt(num: int)

  /** The keys a task request body may carry. */
  datatype Key = Title | Description | Category | Priority | Status | Progress | StartDate | DueDate | AssignedTo {

    /** The key as written in the JSON body. */
    function Name(): string {
      match this
      case Title => "title"
      case Description => "description"
      case Category => "category"
      case Priority => "priority"
      case Status => "status"
      case Progress => "progress"
      case StartDate => "startDate"
      case DueDate => "dueDate"
      case AssignedTo => "assignedTo"
    }
  }

  /** Distinct keys are written as distinct JSON names, so a body is a JSON
      object with no repeated name. */
  lemma KeyNamesDistinct(a: Key, b: Key)
    ensures a.Name() == b.Name() <==> a == b
  {
  }

  /** A JSON request body: its keys and their values. */
  type Payload = map<Key, Json>

  /** `task.assignedUserIds || []`: a missing assignee list counts as empty. */
  function Assignees(t: Task): seq<int> {
    t.assignedUserIds.GetOr([])
  }

  /** The label shown for a status; a value the screens do not know is shown as it is. */
  function FriendlyStatus(status: string): (caption: string)
    ensures status == "todo" ==> caption == "To Do"
    ensures status == "in_progress" ==> caption == "In Progress"
    ensures status == "completed" ==> caption == "Completed"
    ensures status !in {"todo", "in_progress", "completed"} ==> caption == status
  {
    match status
    case "todo" => "To Do"
    case "in_progress" => "In Progress"
    case "completed" => "Completed"
    case _ => status
  }

  /** The three known statuses get three different labels, none of them a status code. */
  lemma FriendlyStatusDistinct(a: TaskStatus, b: TaskStatus)
    ensures a != b ==> FriendlyStatus(a.Code()) != FriendlyStatus(b.Code())
    ensures FriendlyStatus(a.Code()) !in {"todo", "in_progress", "completed"}
  {
  }

  /** The "Assigned To" line of a task card. */
  function AssignedDisplay(names: seq<string>): (shown: string)
    ensures names == [] ==> shown == "N/A"
    ensures names != [] ==> shown == Join(names, ", ")
  {
    if |names| > 0 then Join(names, ", ") else "N/A"
  }

  /** Every piece of a join appears in it. */
  lemma {:induction false} JoinContainsParts(parts: seq<string>, sep: string, i: nat)
    requires i < |parts|
    ensures Contains(Join(parts, sep), parts[i])
    decreases |parts|
  {
    var j := Join(parts, sep);
    if |parts| == 1 {
      assert OccursAt(j, parts[i], 0);
      ContainsAtOffset(j, parts[i]);
    } else if i == 0 {
      assert OccursAt(j, parts[0], 0);
      ContainsAtOffset(j, parts[0]);
    } else {
      JoinContainsParts(parts[1..], sep, i - 1);
      var tail := Join(parts[1..], sep);
      ContainsAtOffset(tail, parts[i]);
      var k :| OccursAt(tail, parts[i], k);
      var off := |parts[0]| + |sep|;
      assert j[off..] == tail;
      assert j[off + k..off + k + |parts[i]|] == tail[k..k + |parts[i]|];
      assert OccursAt(j, parts[i], off + k);
      ContainsAtOffset(j, parts[i]);
    }
  }

  /** Every assigned user's name is on the card. */
  lemma AssignedDisplayShowsAll(names: seq<string>, i: nat)
    requires i < |names|
    ensures Contains(AssignedDisplay(names), names[i])
  {
    JoinContainsParts(names, ", ", i);
  }

  /** The ids in their decimal form, as `join` converts them. */
  function IdStrings(ids: seq<int>): (strs: seq<string>)
    ensures |strs| == |ids|
    ensures forall i :: 0 <= i < |ids| ==> strs[i] == IntToString(ids[i])
    decreases |ids|
  {
    if ids == [] then [] else [IntToString(ids[0])] + IdStrings(ids[1..])
  }

  /** `assignedTo.join(',')`: the ids as one comma-separated string. */
  function JoinIds(ids: seq<int>): string {
    Join(IdStrings(ids), ",")
  }

  /** Reads each piece as an integer; `None` if any is not one. */
  function ParseEach(pieces: seq<string>): Option<seq<int>>
    decreases |pieces|
  {
    if pieces == [] then Some([])
    else
      match (ParseInt(pieces[0]), ParseEach(pieces[1..]))
      case (Some(n), Some(rest)) => Some([n] + rest)
      case _ => None
  }

  /** How a receiver reads an `assignedTo` string back: empty means no one. */
  function ParseIdList(s: string): Option<seq<int>> {
    if s == [] then Some([]) else ParseEach(SplitOn(s, ','))
  }

  /** One step of `ParseEach`: a readable first piece in front of readable pieces. */
  lemma ParseEachCons(piece: string, rest: seq<string>, n: int, ns: seq<int>)
    requires ParseInt(piece) == Some(n) && ParseEach(rest) == Some(ns)
    ensures ParseEach([piece] + rest) == Some([n] + ns)
  {
    assert ([piece] + rest)[0] == piece;
    assert ([piece] + rest)[1..] == rest;
  }

  lemma {:induction false} ParseEachStrings(ids: seq<int>)
    ensures ParseEach(IdStrings(ids)) == Some(ids)
    decreases |ids|
  {
    if ids != [] {
      assert IdStrings(ids) == [IntToString(ids[0])] + IdStrings(ids[1..]);
      ParseIntToString(ids[0]);
      ParseEachStrings(ids[1..]);
      ParseEachCons(IntToString(ids[0]), IdStrings(ids[1..]), ids[0], ids[1..]);
      assert [ids[0]] + ids[1..] == ids;
    }
  }

  lemma {:induction false} JoinNonEmpty(parts: seq<string>, sep: string)
    requires |parts| >= 1 && parts[0] != []
    ensures Join(parts, sep) != []
  {
  }

  /** The comma-joined id string reads back as exactly the ids, in order. */
  lemma IdListRoundTrip(ids: seq<int>)
    ensures ParseIdList(JoinIds(ids)) == Some(ids)
  {
    var strs := IdStrings(ids);
    if ids == [] {
      assert JoinIds(ids) == [];
    } else {
      forall i | 0 <= i < |strs| ensures ',' !in strs[i] {
        assert strs[i] == IntToString(ids[i]);
      }
      JoinNonEmpty(strs, ",");
      SplitJoin(strs, ',');
      ParseEachStrings(ids);
    }
  }
}
