/** The task workflow of the dashboard: tasks belong to an account (tenant),
    are assigned to a user and are completed by submitting a file. The hosted
    store is modelled by `TaskStore`, a class holding the task, submission
    and user collections; the signed-in user is an input. */
module TaskActions {
  import opened Wrappers
  import opened JsString
  import opened CivilTime
  import opened Sorting
  import opened DocumentStore

  // ---------------------------------------------------------------------------
  // Records

  /** The two declared statuses, "pendiente" and "completada", and any other
      string a task document holds: `createTask` stores the status it is
      given as it is, so a caller can write a status the type does not
      declare (the create-task dialog sends "completeda"). */
  datatype StatusValue = Pendiente | Completada | Undeclared(name: string)

  /** A stored status: `Undeclared` never carries one of the two declared
      names, so every status string has exactly one value. */
  type TaskStatus = s: StatusValue | s.Undeclared? ==> s.name != "pendiente" && s.name != "completada"
    witness Pendiente

  predicate Declared(s: TaskStatus) {
    s.Pendiente? || s.Completada?
  }

  function StatusName(s: TaskStatus): string {
    match s
    case Pendiente => "pendiente"
    case Completada => "completada"
    case Undeclared(n) => n
  }

  /** The type guard on a status name: only the two declared names pass. */
  function StatusFromName(name: string): (r: Option<TaskStatus>)
    ensures r.Some? ==> StatusName(r.value) == name && Declared(r.value)
  {
    if name == "pendiente" then Some(Pendiente)
    else if name == "completada" then Some(Completada)
    else None
  }

  /** Every declared status is written by its name and read back from it;
      an undeclared name does not pass the guard. */
  lemma StatusNameRoundTrip(s: TaskStatus)
    ensures Declared(s) ==> StatusFromName(StatusName(s)) == Some(s)
    ensures !Declared(s) ==> StatusFromName(StatusName(s)).None?
  {
  }

  /** The status a task document holds when its `status` string is `name`,
      whatever that string is. */
  function StatusOf(name: string): (r: TaskStatus)
    ensures StatusName(r) == name
    ensures Declared(r) <==> StatusFromName(name).Some?
  {
    if name == "pendiente" then Pendiente
    else if name == "completada" then Completada
    else Undeclared(name)
  }

  /** Status values and status strings correspond one to one: reading the
      name of a status gives that status back. */
  lemma StatusOfName(s: TaskStatus)
    ensures StatusOf(StatusName(s)) == s
  {
  }

  /** A status argument counts as supplied when it is truthy, that is, when it
      is present and not the empty string. */
  predicate Supplied(status: Option<TaskStatus>) {
    status.Some? && StatusName(status.value) != ""
  }

  /** A task document. `createdBy` and `assignee` hold user ids; the store
      resolves them to user documents when it reads the task. */
  datatype Task = Task(
    id: string,
    title: string,
    description: string,
    status: TaskStatus,
    deadline: Option<string>,
    accountid: string,
    createdBy: Option<string>,
    assignee: Option<string>)

  function TaskId(t: Task): string {
    t.id
  }

  /** Is this a task other than `id`? */
  function OtherThan(id: string): Task -> bool {
    (t: Task) => t.id != id
  }

  /** Deleting a task drops it from the listing and keeps the others in order. */
  lemma RemoveTask(tasks: map<string, Task>, order: seq<string>, id: string)
    requires Indexed(tasks, order, TaskId)
    ensures forall i :: 0 <= i < |Remove(order, id)| ==> Remove(order, id)[i] in tasks - {id}
    ensures Project(tasks - {id}, Remove(order, id)) == Filter(Project(tasks, order), OtherThan(id))
  {
    IndexedRemoveListing(tasks, order, TaskId, id, OtherThan(id));
  }

  /** A document of the submissions collection; `kind` is always "file". */
  datatype Submission = Submission(
    id: string,
    taskid: string,
    kind: string,
    file: string,
    submittedBy: string,
    accountid: string,
    submittedat: string)

  datatype TaskError =
    | UserNotFound          // "User not found": nobody is signed in
    | TaskNotFound          // "TASK_NOT_FOUND"
    | DocumentNotFound      // the store's own error: `getDocument` names no document
    | Forbidden             // "FORBIDDEN": the task belongs to another account
    | AssigneeNotFound      // the assignee id names no user document
    | InvalidDeadline       // `new Date(deadline).toISOString()` throws
    | UnknownSortAttribute  // the store rejects ordering by an unknown attribute

  // ---------------------------------------------------------------------------
  // Tenant check

  /** `assertTaskAccess`: a missing task is reported as not found, a task of
      another account as forbidden. */
  function AssertTaskAccess(task: Option<Task>, user: User): (r: Option<TaskError>)
    ensures r.None? <==> task.Some? && task.value.accountid == user.accountId
    ensures r == Some(TaskNotFound) <==> task.None?
    ensures r == Some(Forbidden) <==> task.Some? && task.value.accountid != user.accountId
  {
    if task.None? then Some(TaskNotFound)
    else if task.value.accountid != user.accountId then Some(Forbidden)
    else None
  }

  // ---------------------------------------------------------------------------
  // Deadlines

  /** `new Date(deadline).toISOString()` for the "YYYY-MM-DD" a date input
      produces: such a string is read as midnight UTC. None stands for the
      RangeError an unreadable date raises. */
  function DeadlineIso(deadline: string): (r: Option<string>)
    ensures r.Some? <==> ParseDate(deadline).Some?
  {
    match ParseDate(deadline)
    case None => None
    case Some((y, m, d)) => Some(FormatDate(y, m, d) + "T00:00:00.000Z")
  }

  /** The deadline is the ISO timestamp of midnight UTC of that day. */
  lemma DeadlineIsoIsMidnight(deadline: string)
    requires ParseDate(deadline).Some?
    ensures var (y, m, d) := ParseDate(deadline).value;
      DeadlineIso(deadline) == Some(FormatIso(DateTime(y, m, d, 0, 0, 0)))
  {
    var (y, m, d) := ParseDate(deadline).value;
    MidnightIso(y, m, d);
  }

  /** A date written by the form reads back as the same day. */
  lemma DeadlineIsoOfDate(y: int, m: int, d: int)
    requires IsValidDate(y, m, d) && 0 <= y <= 9999
    ensures DeadlineIso(FormatDate(y, m, d)) == Some(FormatDate(y, m, d) + "T00:00:00.000Z")
  {
    DateRoundTrip(y, m, d);
  }

  // ---------------------------------------------------------------------------
  // Pending listing

  datatype Direction = Asc | Desc

  /** The `field-asc|desc` sort spec split at "-": the first piece names the
      attribute, the second is "asc" for ascending and anything else means
      descending. The empty spec asks for no order. */
  function SortOrder(sort: string): (r: Option<(string, Direction)>)
    ensures r.None? <==> sort == []
    ensures r.Some? ==> '-' !in r.value.0 && |r.value.0| <= |sort| && r.value.0 == sort[..|r.value.0|]
  {
    if sort == [] then None
    else
      var parts := Split(sort, '-');
      JoinPrefix(parts, '-');
      Some((parts[0], if |parts| > 1 && parts[1] == "asc" then Asc else Desc))
  }

  lemma JoinPrefix(parts: seq<string>, sep: char)
    requires |parts| >= 1
    ensures |parts[0]| <= |Join(parts, sep)| && Join(parts, sep)[..|parts[0]|] == parts[0]
  {
  }

  function DirectionName(d: Direction): string {
    match d
    case Asc => "asc"
    case Desc => "desc"
  }

  /** A spec written as attribute, "-" and direction reads back as both. */
  lemma SortOrderOfSpec(attr: string, dir: Direction)
    requires '-' !in attr
    ensures SortOrder(attr + "-" + DirectionName(dir)) == Some((attr, dir))
  {
    var parts := [attr, DirectionName(dir)];
    assert Join(parts[1..], '-') == DirectionName(dir);
    assert Join(parts, '-') == attr + "-" + DirectionName(dir);
    SplitJoin(parts, '-');
  }

  const DefaultSort: string := "deadline-asc"
  const DefaultLimit: nat := 20

  /** Without arguments the listing asks for the earliest deadline first. */
  lemma DefaultSortOrder()
    ensures SortOrder(DefaultSort) == Some(("deadline", Asc))
  {
    SortOrderOfSpec("deadline", Asc);
    assert "deadline" + "-" + DirectionName(Asc) == DefaultSort;
  }

  predicate KnownAttribute(attr: string) {
    attr in {"$id", "title", "description", "status", "deadline", "accountid"}
  }

  /** The value the store orders by; a task without a deadline sorts as the
      empty string, before every date. */
  function SortKey(t: Task, attr: string): string {
    if attr == "$id" then t.id
    else if attr == "title" then t.title
    else if attr == "description" then t.description
    else if attr == "status" then StatusName(t.status)
    else if attr == "deadline" then (match t.deadline case None => "" case Some(d) => d)
    else if attr == "accountid" then t.accountid
    else ""
  }

  function TaskLe(attr: string, dir: Direction): (Task, Task) -> bool {
    (a: Task, b: Task) =>
      if dir == Asc then StrLe(SortKey(a, attr), SortKey(b, attr))
      else StrLe(SortKey(b, attr), SortKey(a, attr))
  }

  lemma TaskLePreorder(attr: string, dir: Direction)
    ensures IsTotalPreorder(TaskLe(attr, dir))
  {
    var le := TaskLe(attr, dir);
    forall a: Task, b: Task ensures le(a, b) || le(b, a) {
      StrLeTotal(SortKey(a, attr), SortKey(b, attr));
    }
    forall a: Task, b: Task, c: Task | le(a, b) && le(b, c) ensures le(a, c) {
      if dir == Asc {
        StrLeTransitive(SortKey(a, attr), SortKey(b, attr), SortKey(c, attr));
      } else {
        StrLeTransitive(SortKey(c, attr), SortKey(b, attr), SortKey(a, attr));
      }
    }
  }

  /** `user?.fullName || fallback` for a user reference. */
  function DisplayName(users: map<string, User>, ref: Option<string>, fallback: string): (r: string)
    ensures r == fallback || (ref.Some? && ref.value in users && r == users[ref.value].fullName != "")
  {
    if ref.Some? && ref.value in users && users[ref.value].fullName != "" then users[ref.value].fullName
    else fallback
  }

  /** A listed task with its assignee and creator names resolved. */
  datatype TaskCard = TaskCard(task: Task, assigneeName: string, createdByName: string)

  function Card(users: map<string, User>, t: Task): TaskCard {
    TaskCard(t, DisplayName(users, t.assignee, "Sin asignar"), DisplayName(users, t.createdBy, "Admin"))
  }

  function Cards(users: map<string, User>, ts: seq<Task>): (r: seq<TaskCard>)
    ensures |r| == |ts|
    ensures forall i :: 0 <= i < |ts| ==> r[i] == Card(users, ts[i])
  {
    if ts == [] then [] else [Card(users, ts[0])] + Cards(users, ts[1..])
  }

  function TasksOf(cards: seq<TaskCard>): (r: seq<Task>)
    ensures |r| == |cards|
    ensures forall i :: 0 <= i < |cards| ==> r[i] == cards[i].task
  {
    if cards == [] then [] else [cards[0].task] + TasksOf(cards[1..])
  }

  /** `total` counts every match; `documents` holds at most `limit` of them. */
  datatype PendingPage = PendingPage(total: nat, documents: seq<TaskCard>)

  predicate IsPendingOf(t: Task, accountId: string) {
    t.accountid == accountId && t.status == Pendiente
  }

  function PendingOf(docs: seq<Task>, accountId: string): seq<Task> {
    Filter(docs, (t: Task) => IsPendingOf(t, accountId))
  }

  /** The ordered listing before the limit: store order without a sort spec. */
  function Ordered(ts: seq<Task>, order: Option<(string, Direction)>): seq<Task> {
    match order
    case None => ts
    case Some((attr, dir)) => SortBy(ts, TaskLe(attr, dir))
  }

  /** The pending tasks of the caller's account, ordered by the sort spec,
      at most `limit` of them, with names resolved. */
  function PendingTasks(docs: seq<Task>, users: map<string, User>, user: Option<User>, limit: nat, sort: string)
    : (r: Result<PendingPage, TaskError>)
    ensures r == Err(UserNotFound) <==> user.None?
    ensures r == Err(UnknownSortAttribute) <==>
              user.Some? && SortOrder(sort).Some? && !KnownAttribute(SortOrder(sort).value.0)
  {
    if user.None? then Err(UserNotFound)
    else
      var order := SortOrder(sort);
      if order.Some? && !KnownAttribute(order.value.0) then Err(UnknownSortAttribute)
      else
        var matching := PendingOf(docs, user.value.accountId);
        Ok(PendingPage(|matching|, Cards(users, Take(Ordered(matching, order), limit))))
  }

  lemma TasksOfCards(users: map<string, User>, ts: seq<Task>)
    ensures TasksOf(Cards(users, ts)) == ts
  {
    var l := TasksOf(Cards(users, ts));
    assert forall i :: 0 <= i < |ts| ==> l[i] == ts[i];
  }

  /** The tasks a successful listing shows, in order. */
  function Shown(docs: seq<Task>, accountId: string, limit: nat, sort: string): seq<Task> {
    Take(Ordered(PendingOf(docs, accountId), SortOrder(sort)), limit)
  }

  lemma PendingTasksShape(docs: seq<Task>, users: map<string, User>, user: Option<User>, limit: nat, sort: string)
    requires PendingTasks(docs, users, user, limit, sort).Ok?
    ensures user.Some?
    ensures var page := PendingTasks(docs, users, user, limit, sort).value;
      && page.total == |PendingOf(docs, user.value.accountId)|
      && page.documents == Cards(users, Shown(docs, user.value.accountId, limit, sort))
      && TasksOf(page.documents) == Shown(docs, user.value.accountId, limit, sort)
  {
    TasksOfCards(users, Shown(docs, user.value.accountId, limit, sort));
  }

  /** Only pending tasks of the caller's account are listed, at most `limit`
      of them, and every match is counted in `total`. */
  lemma PendingTasksSound(docs: seq<Task>, users: map<string, User>, user: Option<User>, limit: nat, sort: string)
    requires PendingTasks(docs, users, user, limit, sort).Ok?
    ensures user.Some?
    ensures var page := PendingTasks(docs, users, user, limit, sort).value;
      && page.total == |PendingOf(docs, user.value.accountId)|
      && |page.documents| == (if page.total <= limit then page.total else limit)
      && (forall c :: c in page.documents ==> c.task in docs && IsPendingOf(c.task, user.value.accountId))
  {
    PendingTasksShape(docs, users, user, limit, sort);
    var page := PendingTasks(docs, users, user, limit, sort).value;
    var acc := user.value.accountId;
    var matching := PendingOf(docs, acc);
    var ordered := Ordered(matching, SortOrder(sort));
    var shown := Shown(docs, acc, limit, sort);
    assert multiset(ordered) == multiset(matching);
    forall c | c in page.documents
      ensures c.task in docs && IsPendingOf(c.task, acc)
    {
      var i :| 0 <= i < |page.documents| && page.documents[i] == c;
      assert c.task == shown[i];
      assert shown[i] in multiset(ordered);
    }
  }

  /** Assignee and creator names fall back to "Sin asignar" and "Admin". */
  lemma PendingTasksNames(docs: seq<Task>, users: map<string, User>, user: Option<User>, limit: nat, sort: string)
    requires PendingTasks(docs, users, user, limit, sort).Ok?
    ensures forall c :: c in PendingTasks(docs, users, user, limit, sort).value.documents ==>
              c.assigneeName == DisplayName(users, c.task.assignee, "Sin asignar")
              && c.createdByName == DisplayName(users, c.task.createdBy, "Admin")
  {
    PendingTasksShape(docs, users, user, limit, sort);
  }

  /** With a sort spec the tasks come in the order it names. */
  lemma PendingTasksOrdered(docs: seq<Task>, users: map<string, User>, user: Option<User>, limit: nat, sort: string)
    requires PendingTasks(docs, users, user, limit, sort).Ok?
    requires SortOrder(sort).Some?
    ensures SortedBy(TasksOf(PendingTasks(docs, users, user, limit, sort).value.documents),
                     TaskLe(SortOrder(sort).value.0, SortOrder(sort).value.1))
  {
    PendingTasksShape(docs, users, user, limit, sort);
    var (attr, dir) := SortOrder(sort).value;
    var matching := PendingOf(docs, user.value.accountId);
    TaskLePreorder(attr, dir);
    SortBySorted(matching, TaskLe(attr, dir));
    TakeSorted(SortBy(matching, TaskLe(attr, dir)), limit, TaskLe(attr, dir));
  }

  /** When every match fits under the limit, every pending task of the
      account is listed, each once. */
  lemma PendingTasksComplete(docs: seq<Task>, users: map<string, User>, user: Option<User>, limit: nat, sort: string)
    requires PendingTasks(docs, users, user, limit, sort).Ok?
    requires |PendingOf(docs, user.value.accountId)| <= limit
    ensures multiset(TasksOf(PendingTasks(docs, users, user, limit, sort).value.documents))
            == multiset(PendingOf(docs, user.value.accountId))
  {
    var matching := PendingOf(docs, user.value.accountId);
    var ordered := Ordered(matching, SortOrder(sort));
    TasksOfCards(users, Take(ordered, limit));
    assert Take(ordered, limit) == ordered;
  }

  // ---------------------------------------------------------------------------
  // Counters

  datatype Counters = Counters(pending: nat, completed: nat)

  function CountStatus(docs: seq<Task>, accountId: string, s: TaskStatus): nat {
    |Filter(docs, (t: Task) => t.accountid == accountId && t.status == s)|
  }

  function AccountTasks(docs: seq<Task>, accountId: string): seq<Task> {
    Filter(docs, (t: Task) => t.accountid == accountId)
  }

  /** The account's tasks whose status is neither declared one. */
  function UndeclaredOf(docs: seq<Task>, accountId: string): seq<Task> {
    Filter(docs, (t: Task) => t.accountid == accountId && t.status.Undeclared?)
  }

  /** The totals of pending and completed tasks of the caller's account: the
      `total` of the two `Query.equal("status", ...)` listings. */
  function TaskCounters(docs: seq<Task>, user: Option<User>): (r: Result<Counters, TaskError>)
    ensures r.Err? <==> user.None?
    ensures r.Ok? ==> r.value.pending == |PendingOf(docs, user.value.accountId)|
    ensures r.Ok? ==> r.value.completed == CountStatus(docs, user.value.accountId, Completada)
    ensures r.Ok? ==> r.value.pending + r.value.completed
                      == |AccountTasks(docs, user.value.accountId)| - |UndeclaredOf(docs, user.value.accountId)|
  {
    if user.None? then Err(UserNotFound)
    else
      var acc := user.value.accountId;
      CountersPartition(docs, acc);
      assert PendingOf(docs, acc) == Filter(docs, (t: Task) => t.accountid == acc && t.status == Pendiente) by {
        FilterSame(docs, (t: Task) => IsPendingOf(t, acc), (t: Task) => t.accountid == acc && t.status == Pendiente);
      }
      Ok(Counters(CountStatus(docs, acc, Pendiente), CountStatus(docs, acc, Completada)))
  }

  /** Pending and completed together count every task of the account but
      those with an undeclared status, which neither counter query matches;
      so they count them all exactly when every status is declared. */
  lemma CountersPartition(docs: seq<Task>, accountId: string)
    ensures CountStatus(docs, accountId, Pendiente) + CountStatus(docs, accountId, Completada)
            + |UndeclaredOf(docs, accountId)| == |AccountTasks(docs, accountId)|
    ensures CountStatus(docs, accountId, Pendiente) + CountStatus(docs, accountId, Completada)
            == |AccountTasks(docs, accountId)|
            <==> forall t :: t in docs && t.accountid == accountId ==> Declared(t.status)
  {
    CountersSum(docs, accountId);
    var u := UndeclaredOf(docs, accountId);
    if exists t :: t in docs && t.accountid == accountId && !Declared(t.status) {
      var t :| t in docs && t.accountid == accountId && !Declared(t.status);
      assert t in u;
    } else if |u| > 0 {
      assert u[0] in u;
    }
  }

  lemma {:induction false} CountersSum(docs: seq<Task>, accountId: string)
    ensures CountStatus(docs, accountId, Pendiente) + CountStatus(docs, accountId, Completada)
            + |UndeclaredOf(docs, accountId)| == |AccountTasks(docs, accountId)|
  {
    if docs != [] {
      CountersSum(docs[1..], accountId);
      // The head of the listing falls in at most one of the three parts.
      var t := docs[0];
      if t.accountid != accountId {
      } else if t.status.Pendiente? {
      } else if t.status.Completada? {
      } else {
      }
    }
  }

  /** A task of the account whose status string is "pendiente" adds one to
      the pending counter and nothing to the completed one, as the query on
      that string does. */
  lemma PendingNameCounted(docs: seq<Task>, accountId: string, t: Task)
    requires t.accountid == accountId && StatusName(t.status) == "pendiente"
    ensures CountStatus(docs + [t], accountId, Pendiente) == CountStatus(docs, accountId, Pendiente) + 1
    ensures CountStatus(docs + [t], accountId, Completada) == CountStatus(docs, accountId, Completada)
  {
    FilterAppend(docs, [t], (t: Task) => t.accountid == accountId && t.status == Pendiente);
    FilterAppend(docs, [t], (t: Task) => t.accountid == accountId && t.status == Completada);
  }

  /** A task of the account stored with an undeclared status is in the
      account's tasks but in neither counter. */
  lemma UndeclaredStatusUncounted(docs: seq<Task>, accountId: string, t: Task)
    requires t.accountid == accountId && !Declared(t.status)
    ensures CountStatus(docs + [t], accountId, Pendiente) == CountStatus(docs, accountId, Pendiente)
    ensures CountStatus(docs + [t], accountId, Completada) == CountStatus(docs, accountId, Completada)
    ensures |AccountTasks(docs + [t], accountId)| == |AccountTasks(docs, accountId)| + 1
  {
    FilterAppend(docs, [t], (t: Task) => t.accountid == accountId && t.status == Pendiente);
    FilterAppend(docs, [t], (t: Task) => t.accountid == accountId && t.status == Completada);
    FilterAppend(docs, [t], (t: Task) => t.accountid == accountId);
  }

  // ---------------------------------------------------------------------------
  // New tasks

  /** The task `createTask` writes: the caller's account and id are stamped
      on it, the assignee must be a user document, and the deadline is
      converted to an ISO timestamp when one is given. */
  function NewTask(user: Option<User>, users: map<string, User>, title: string, description: string,
                   status: TaskStatus, deadline: string, assigneeUserId: string, id: string)
    : (r: Result<Task, TaskError>)
    ensures r == Err(UserNotFound) <==> user.None?
    ensures user.Some? && deadline != "" && DeadlineIso(deadline).None? ==> r == Err(InvalidDeadline)
    ensures user.Some? && (deadline == "" || DeadlineIso(deadline).Some?) && assigneeUserId !in users ==>
              r == Err(AssigneeNotFound)
    ensures r.Ok? ==>
              && user.Some? && assigneeUserId in users
              && r.value.id == id
              && r.value.accountid == user.value.accountId
              && r.value.createdBy == Some(user.value.id)
              && r.value.assignee == Some(users[assigneeUserId].id)
              && r.value.title == title && r.value.description == description && r.value.status == status
              && r.value.deadline == (if deadline == "" then None else DeadlineIso(deadline))
  {
    if user.None? then Err(UserNotFound)
    else if deadline != "" && DeadlineIso(deadline).None? then Err(InvalidDeadline)
    else if assigneeUserId !in users then Err(AssigneeNotFound)
    else
      var deadlineIso := if deadline == "" then None else DeadlineIso(deadline);
      Ok(Task(id, title, description, status, deadlineIso, user.value.accountId, Some(user.value.id),
              Some(users[assigneeUserId].id)))
  }

  // ---------------------------------------------------------------------------
  // Partial updates

  /** The fields `updateTask` writes; None leaves the field as it is. */
  datatype TaskPatch = TaskPatch(
    title: Option<string>,
    description: Option<string>,
    status: Option<TaskStatus>,
    deadline: Option<string>,
    assignee: Option<string>)

  const EmptyPatch := TaskPatch(None, None, None, None, None)

  function ApplyPatch(t: Task, p: TaskPatch): (r: Task)
    ensures r.id == t.id && r.accountid == t.accountid && r.createdBy == t.createdBy
    ensures p.status.Some? ==> r.status == p.status.value
    ensures p.deadline.Some? ==> r.deadline == p.deadline
  {
    t.(title := match p.title case Some(v) => v case None => t.title,
       description := match p.description case Some(v) => v case None => t.description,
       status := match p.status case Some(v) => v case None => t.status,
       deadline := match p.deadline case Some(v) => Some(v) case None => t.deadline,
       assignee := match p.assignee case Some(v) => Some(v) case None => t.assignee)
  }

  /** The payload built from the truthy arguments only: the empty string
      stands for an argument that was not supplied. */
  function PatchOf(title: string, description: string, status: Option<TaskStatus>, deadline: string, assigneeUserId: string)
    : (r: Result<TaskPatch, TaskError>)
    ensures r.Err? <==> deadline != "" && DeadlineIso(deadline).None?
    ensures r.Err? ==> r.error == InvalidDeadline
    ensures r.Ok? ==> (r.value == EmptyPatch <==>
              title == "" && description == "" && !Supplied(status) && deadline == "" && assigneeUserId == "")
    ensures r.Ok? ==> (r.value.status.Some? <==> Supplied(status))
  {
    if deadline != "" && DeadlineIso(deadline).None? then Err(InvalidDeadline)
    else Ok(TaskPatch(
      if title != "" then Some(title) else None,
      if description != "" then Some(description) else None,
      if Supplied(status) then status else None,
      if deadline != "" then DeadlineIso(deadline) else None,
      if assigneeUserId != "" then Some(assigneeUserId) else None))
  }

  /** A patch writes only the fields it carries: identity, account and
      creator never change, and every field it does not carry keeps its value. */
  lemma PatchFrame(title: string, description: string, status: Option<TaskStatus>, deadline: string, assigneeUserId: string, t: Task)
    requires PatchOf(title, description, status, deadline, assigneeUserId).Ok?
    ensures var u := ApplyPatch(t, PatchOf(title, description, status, deadline, assigneeUserId).value);
      && u.id == t.id && u.accountid == t.accountid && u.createdBy == t.createdBy
      && u.title == (if title != "" then title else t.title)
      && u.description == (if description != "" then description else t.description)
      && u.status == (if Supplied(status) then status.value else t.status)
      && (deadline == "" ==> u.deadline == t.deadline)
      && (deadline != "" ==> u.deadline == DeadlineIso(deadline))
      && u.assignee == (if assigneeUserId != "" then Some(assigneeUserId) else t.assignee)
  {
  }

  /** The empty payload changes nothing. */
  lemma ApplyEmptyPatch(t: Task)
    ensures ApplyPatch(t, EmptyPatch) == t
  {
  }

  /** Sending the same update twice is the same as sending it once. */
  lemma ApplyPatchIdempotent(t: Task, p: TaskPatch)
    ensures ApplyPatch(ApplyPatch(t, p), p) == ApplyPatch(t, p)
  {
  }

  /** Either status can be written, so a completed task can be reopened. */
  lemma ReopenCompleted(t: Task)
    requires t.status == Completada
    ensures PatchOf("", "", Some(Pendiente), "", "") == Ok(TaskPatch(None, None, Some(Pendiente), None, None))
    ensures ApplyPatch(t, TaskPatch(None, None, Some(Pendiente), None, None)).status == Pendiente
  {
  }

  // ---------------------------------------------------------------------------
  // Submissions

  predicate Matches(s: Submission, taskid: string, userId: string) {
    s.taskid == taskid && s.submittedBy == userId
  }

  predicate HasSubmission(subs: map<string, Submission>, taskid: string, userId: string) {
    exists sid :: sid in subs && Matches(subs[sid], taskid, userId)
  }

  /** At most one submission per (task, user). */
  ghost predicate UniqueSubmissions(subs: map<string, Submission>) {
    forall a, b :: a in subs && b in subs && Matches(subs[b], subs[a].taskid, subs[a].submittedBy) ==> a == b
  }

  ghost predicate SubmissionsIndexed(subs: map<string, Submission>) {
    (forall id :: id in subs ==> subs[id].id == id) && UniqueSubmissions(subs)
  }

  /** Recording a submission for a (task, user) pair that has none keeps one
      submission per pair. */
  lemma AddSubmission(subs: map<string, Submission>, s: Submission)
    requires SubmissionsIndexed(subs)
    requires s.id !in subs && !HasSubmission(subs, s.taskid, s.submittedBy)
    ensures SubmissionsIndexed(subs[s.id := s])
  {
  }

  function NewSubmission(id: string, taskid: string, fileId: string, user: User, now: string): Submission {
    Submission(id, taskid, "file", fileId, user.id, user.accountId, now)
  }

  datatype SubmitOutcome =
    | AlreadyCompleted(task: Task)
    | Submitted(task: Task, submission: Submission)

  // ---------------------------------------------------------------------------
  // The store

  class TaskStore {
    var tasks: map<string, Task>
    /** Task ids in the order the collection lists them. */
    var order: seq<string>
    var submissions: map<string, Submission>
    /** The users collection (`usersCollectionId`) keyed by document id: the
        same collection the event store lists in order, kept as a map here
        because the task actions look users up by id. */
    var users: map<string, User>

    ghost predicate Valid()
      reads this
    {
      && Indexed(tasks, order, TaskId)
      && SubmissionsIndexed(submissions)
      && (forall id :: id in users ==> users[id].id == id)
    }

    constructor (users: map<string, User>)
      requires forall id :: id in users ==> users[id].id == id
      ensures Valid()
      ensures this.tasks == map[] && this.order == [] && this.submissions == map[] && this.users == users
    {
      this.tasks := map[];
      this.order := [];
      this.submissions := map[];
      this.users := users;
    }

    /** The task collection in listing order. */
    function Documents(): seq<Task>
      reads this
      requires Valid()
    {
      Project(tasks, order)
    }

    /** `getPendingTasksForCurrentUser`. */
    function PendingTasksForCurrentUser(user: Option<User>, limit: nat, sort: string): (r: Result<PendingPage, TaskError>)
      reads this
      requires Valid()
      ensures r == Err(UserNotFound) <==> user.None?
      ensures r.Ok? ==> user.Some? && r.value.total == |PendingOf(Documents(), user.value.accountId)|
    {
      PendingTasks(Documents(), users, user, limit, sort)
    }

    /** `getTaskCounters`. */
    function Counters(user: Option<User>): (r: Result<Counters, TaskError>)
      reads this
      requires Valid()
      ensures r.Err? <==> user.None?
      ensures r.Ok? ==> r.value.pending == |PendingOf(Documents(), user.value.accountId)|
      ensures r.Ok? ==> r.value.completed == CountStatus(Documents(), user.value.accountId, Completada)
    {
      TaskCounters(Documents(), user)
    }

    /** The failure of the first checks of submit, update and delete: the
        signed-in user, then `getDocument`, which throws the store's own error
        for an unknown id, then the tenant check on the task it returned. So
        `assertTaskAccess` never sees a missing task on these paths. */
    function AccessError(user: Option<User>, taskId: string): (r: Option<TaskError>)
      reads this
      ensures r.None? <==> user.Some? && taskId in tasks && tasks[taskId].accountid == user.value.accountId
      ensures r == Some(UserNotFound) <==> user.None?
      ensures r == Some(DocumentNotFound) <==> user.Some? && taskId !in tasks
      ensures r != Some(TaskNotFound)
    {
      if user.None? then Some(UserNotFound)
      else if taskId !in tasks then Some(DocumentNotFound)
      else AssertTaskAccess(Some(tasks[taskId]), user.value)
    }

    /** `submitTask`: completes a pending task by recording (or reusing) the
        caller's submission for it. A completed task is returned as it is. */
    method SubmitTask(user: Option<User>, taskId: string, fileId: string, freshId: string, now: string)
      returns (r: Result<SubmitOutcome, TaskError>)
      requires Valid()
      requires freshId !in submissions
      modifies this
      ensures Valid()
      ensures users == old(users) && order == old(order)
      ensures old(AccessError(user, taskId)).Some? ==>
                r == Err(old(AccessError(user, taskId)).value)
                && tasks == old(tasks) && submissions == old(submissions)
      ensures old(AccessError(user, taskId)).None? && old(tasks[taskId]).status == Completada ==>
                r == Ok(AlreadyCompleted(old(tasks[taskId])))
                && tasks == old(tasks) && submissions == old(submissions)
      ensures old(AccessError(user, taskId)).None? && old(tasks[taskId]).status != Completada ==>
                && r.Ok? && r.value.Submitted?
                && r.value.task == old(tasks[taskId]).(status := Completada)
                && tasks == old(tasks)[taskId := r.value.task]
                && Matches(r.value.submission, taskId, user.value.id)
                && (old(HasSubmission(submissions, taskId, user.value.id)) ==>
                      submissions == old(submissions) && r.value.submission in old(submissions).Values)
                && (!old(HasSubmission(submissions, taskId, user.value.id)) ==>
                      r.value.submission == NewSubmission(freshId, taskId, fileId, user.value, now)
                      && submissions == old(submissions)[freshId := r.value.submission])
    {
      var denied := AccessError(user, taskId);
      if denied.Some? {
        return Err(denied.value);
      }
      var u := user.value;
      var t := tasks[taskId];
      if t.status == Completada {
        return Ok(AlreadyCompleted(t));
      }
      var submission: Submission;
      if HasSubmission(submissions, t.id, u.id) {
        var sid :| sid in submissions && Matches(submissions[sid], t.id, u.id);
        submission := submissions[sid];
      } else {
        submission := NewSubmission(freshId, t.id, fileId, u, now);
        AddSubmission(submissions, submission);
        submissions := submissions[freshId := submission];
      }
      var updated := t.(status := Completada);
      IndexedUpdate(tasks, order, TaskId, updated);
      tasks := tasks[t.id := updated];
      r := Ok(Submitted(updated, submission));
    }

    /** Submitting twice in a row, the second time possibly with another
        file: the second call finds the task completed and changes nothing,
        so one submission stands for (task, user). */
    method SubmitTwice(user: Option<User>, taskId: string, fileId1: string, fileId2: string,
                       freshId1: string, freshId2: string, now: string)
      returns (first: Result<SubmitOutcome, TaskError>, second: Result<SubmitOutcome, TaskError>)
      requires Valid()
      requires freshId1 !in submissions && freshId2 !in submissions && freshId1 != freshId2
      modifies this
      ensures Valid()
      ensures first.Ok? ==> second.Ok? && second.value.AlreadyCompleted?
      ensures first.Ok? && first.value.Submitted? ==> second == Ok(AlreadyCompleted(first.value.task))
      ensures first.Err? ==> second == first && tasks == old(tasks) && submissions == old(submissions)
      ensures first.Ok? ==> user.Some? && tasks == old(tasks)[taskId := first.value.task]
      ensures first.Ok? && first.value.AlreadyCompleted? ==> submissions == old(submissions)
      ensures first.Ok? && first.value.Submitted? ==>
                if old(HasSubmission(submissions, taskId, user.value.id))
                then submissions == old(submissions)
                else submissions == old(submissions)[freshId1 := first.value.submission]
    {
      first := SubmitTask(user, taskId, fileId1, freshId1, now);
      ghost var between := tasks;
      ghost var subsBetween := submissions;
      second := SubmitTask(user, taskId, fileId2, freshId2, now);
      if first.Ok? {
        assert second == Ok(AlreadyCompleted(between[taskId]));
        assert tasks == between && submissions == subsBetween;
      }
    }

    /** `createTask`: a new task of the caller's account, created by the
        caller and assigned to an existing user. */
    method CreateTask(user: Option<User>, title: string, description: string, status: TaskStatus,
                      deadline: string, assigneeUserId: string, freshId: string)
      returns (r: Result<Task, TaskError>)
      requires Valid()
      requires freshId !in tasks
      modifies this
      ensures Valid()
      ensures users == old(users) && submissions == old(submissions)
      ensures r == NewTask(user, old(users), title, description, status, deadline, assigneeUserId, freshId)
      ensures r.Err? ==> tasks == old(tasks) && order == old(order)
      ensures r.Ok? ==>
                && tasks == old(tasks)[freshId := r.value]
                && order == old(order) + [freshId]
                && Documents() == old(Documents()) + [r.value]
    {
      r := NewTask(user, users, title, description, status, deadline, assigneeUserId, freshId);
      if r.Ok? {
        var t := r.value;
        ghost var before := Documents();
        IndexedInsert(tasks, order, TaskId, t);
        tasks := tasks[freshId := t];
        order := order + [freshId];
        assert Documents() == before + [t];
      }
    }

    /** `payloadToUpdate`, filled field by field from the truthy arguments. */
    static method BuildPayload(title: string, description: string, status: Option<TaskStatus>, deadline: string,
                               assigneeUserId: string)
      returns (r: Result<TaskPatch, TaskError>)
      ensures r == PatchOf(title, description, status, deadline, assigneeUserId)
    {
      var payload := EmptyPatch;
      if title != "" {
        payload := payload.(title := Some(title));
      }
      assert payload == EmptyPatch.(title := if title != "" then Some(title) else None);
      if description != "" {
        payload := payload.(description := Some(description));
      }
      assert payload.description == (if description != "" then Some(description) else None);
      if status.Some? && StatusName(status.value) != "" {
        payload := payload.(status := status);
      }
      assert payload.status == (if Supplied(status) then status else None);
      if deadline != "" {
        var iso := DeadlineIso(deadline);
        if iso.None? {
          return Err(InvalidDeadline);
        }
        payload := payload.(deadline := iso);
      }
      assert payload.deadline == (if deadline != "" then DeadlineIso(deadline) else None);
      if assigneeUserId != "" {
        payload := payload.(assignee := Some(assigneeUserId));
      }
      assert payload.assignee == (if assigneeUserId != "" then Some(assigneeUserId) else None);
      assert PatchOf(title, description, status, deadline, assigneeUserId) == Ok(payload);
      r := Ok(payload);
    }

    /** `updateTask`: writes only the truthy arguments; with none of them it
        returns the task and writes nothing. */
    method UpdateTask(user: Option<User>, taskId: string, title: string, description: string,
                      status: Option<TaskStatus>, deadline: string, assigneeUserId: string)
      returns (r: Result<Task, TaskError>)
      requires Valid()
      modifies this
      ensures Valid()
      ensures users == old(users) && submissions == old(submissions) && order == old(order)
      ensures old(AccessError(user, taskId)).Some? ==>
                r == Err(old(AccessError(user, taskId)).value) && tasks == old(tasks)
      ensures old(AccessError(user, taskId)).None? ==>
                match PatchOf(title, description, status, deadline, assigneeUserId)
                case Err(e) => r == Err(e) && tasks == old(tasks)
                case Ok(p) =>
                  if p == EmptyPatch then r == Ok(old(tasks[taskId])) && tasks == old(tasks)
                  else r == Ok(ApplyPatch(old(tasks[taskId]), p)) && tasks == old(tasks)[taskId := r.value]
    {
      var denied := AccessError(user, taskId);
      if denied.Some? {
        return Err(denied.value);
      }
      var task := tasks[taskId];
      var built := BuildPayload(title, description, status, deadline, assigneeUserId);
      if built.Err? {
        return Err(built.error);
      }
      var payload := built.value;
      if payload == EmptyPatch {
        return Ok(task);
      }
      var updated := ApplyPatch(task, payload);
      IndexedUpdate(tasks, order, TaskId, updated);
      tasks := tasks[taskId := updated];
      r := Ok(updated);
    }

    /** `deleteTask`: removes exactly that task; its submissions stay. */
    method DeleteTask(user: Option<User>, taskId: string) returns (r: Result<(), TaskError>)
      requires Valid()
      modifies this
      ensures Valid()
      ensures users == old(users) && submissions == old(submissions)
      ensures old(AccessError(user, taskId)).Some? ==>
                r == Err(old(AccessError(user, taskId)).value) && tasks == old(tasks) && order == old(order)
      ensures old(AccessError(user, taskId)).None? ==>
                && r == Ok(())
                && tasks == old(tasks) - {taskId}
                && order == Remove(old(order), taskId)
    {
      var denied := AccessError(user, taskId);
      if denied.Some? {
        return Err(denied.value);
      }
      IndexedRemove(tasks, order, TaskId, taskId);
      tasks := tasks - {taskId};
      order := Remove(order, taskId);
      r := Ok(());
    }
  }
}
