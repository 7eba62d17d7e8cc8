/**
 * The Task model of app/models/task.rb: the status enum, the title and
 * status validations, the column defaults, attribute assignment and the
 * three filter scopes. The task table is a map from id to row.
 */
module TaskModel {
  import opened RubyCore
  import opened Exceptions
  import opened Users

  type TaskId = nat

  /** A date, as a day number. */
  type Date = int

  datatype Status = Pending | InProgress | Completed

  /** The enum mapping: each status is stored as its own key. */
  function Key(s: Status): string {
    match s
    case Pending => "pending"
    case InProgress => "in_progress"
    case Completed => "completed"
  }

  /** `statuses.key?(k)`, answering the status it names. */
  function StatusOfKey(k: string): (r: Option<Status>)
    ensures r.Some? ==> Key(r.value) == k
    ensures r.None? ==> forall s: Status :: Key(s) != k
    ensures r.Some? ==> !Blank(k)
  {
    if k == "pending" then
      assert !IsBlankChar(k[0]);
      Some(Pending)
    else if k == "in_progress" then
      assert !IsBlankChar(k[0]);
      Some(InProgress)
    else if k == "completed" then
      assert !IsBlankChar(k[0]);
      Some(Completed)
    else None
  }

  /** The status domain is exactly the three keys. */
  lemma StatusKeys(k: string)
    ensures StatusOfKey(k).Some? <==> k in {"pending", "in_progress", "completed"}
  {
  }

  /** A task row. `userId` is the owner (`belongs_to :user`, NOT NULL), so
      every task has exactly one owner. Title and status may be nil before
      validation. */
  datatype Task = Task(
    userId: UserId,
    title: Option<string>,
    description: Option<string>,
    status: Option<Status>,
    dueDate: Option<Date>)

  /** A task built for `owner`: the columns' defaults, with status 'pending'. */
  function NewTask(owner: UserId): (t: Task)
    ensures t.userId == owner && t.status == Some(Pending)
    ensures t.title.None? && t.description.None? && t.dueDate.None?
  {
    Task(owner, None, None, Some(Pending), None)
  }

  /** The message of the ArgumentError an unknown status raises. */
  function InvalidStatusMessage(v: string): string {
    "'" + v + "' is not a valid status"
  }

  /** Assigning a value to the enum attribute: a blank value casts to nil,
      a key to its status, and anything else raises ArgumentError at once. */
  function CastStatus(v: string): (r: Result<Option<Status>>)
    ensures r.Ok? <==> Blank(v) || StatusOfKey(v).Some?
    ensures r.Ok? && r.value.Some? ==> Key(r.value.value) == v
    ensures r.Ok? && !Blank(v) ==> r.value.Some?
    ensures r.Raise? ==> r.error == ArgumentError(InvalidStatusMessage(v))
  {
    if Blank(v) then Ok(None)
    else match StatusOfKey(v)
      case Some(s) => Ok(Some(s))
      case None => Raise(ArgumentError(InvalidStatusMessage(v)))
  }

  /** Assigning a request value to the enum attribute: a value sent as nil
      casts to nil like a blank one. */
  function CastStatusParam(v: Option<string>): (r: Result<Option<Status>>)
    ensures r.Ok? <==> v.None? || Blank(v.value) || StatusOfKey(v.value).Some?
    ensures r.Ok? ==> (r.value.Some? <==> v.Some? && StatusOfKey(v.value).Some?)
    ensures r.Ok? && r.value.Some? ==> Key(r.value.value) == v.value
    ensures r.Raise? ==> r.error == ArgumentError(InvalidStatusMessage(v.value))
  {
    match v
    case None => Ok(None)
    case Some(s) => CastStatus(s)
  }

  /** The permitted attributes of a request. For each, None is a key the
      client did not send and Some(None) a key sent as nil (JSON null). */
  datatype TaskParams = TaskParams(
    title: Option<Option<string>>,
    description: Option<Option<string>>,
    status: Option<Option<string>>,
    dueDate: Option<Option<Date>>)

  /** `assign_attributes(params)`: each supplied attribute replaces the old
      value, nil included; the status cast may raise. */
  function Assign(t: Task, p: TaskParams): (r: Result<Task>)
    ensures r.Ok? <==> p.status.None? || CastStatusParam(p.status.value).Ok?
    ensures r.Raise? ==> r == Raise(CastStatusParam(p.status.value).error)
    ensures r.Ok? ==> r.value.userId == t.userId
    ensures r.Ok? ==> r.value.title == (if p.title.Some? then p.title.value else t.title)
    ensures r.Ok? ==> r.value.description == (if p.description.Some? then p.description.value else t.description)
    ensures r.Ok? ==> r.value.status == (if p.status.Some? then CastStatusParam(p.status.value).value else t.status)
    ensures r.Ok? ==> r.value.dueDate == (if p.dueDate.Some? then p.dueDate.value else t.dueDate)
  {
    var status :=
      if p.status.None? then Ok(t.status) else CastStatusParam(p.status.value);
    match status
    case Raise(e) => Raise(e)
    case Ok(s) =>
      Ok(Task(
        t.userId,
        if p.title.Some? then p.title.value else t.title,
        if p.description.Some? then p.description.value else t.description,
        s,
        if p.dueDate.Some? then p.dueDate.value else t.dueDate))
  }

  const MaxTitleLength: nat := 255

  /** The title validation's messages: presence, then length 1..255.
      A nil title counts as length 0 for the minimum and is not checked
      against the maximum. The title passes iff it is present, not blank and
      at most 255 characters long (a non-blank title is at least 1 long);
      "too short" and "too long" never come together. */
  function TitleErrors(title: Option<string>): (msgs: seq<string>)
    ensures msgs == [] <==>
      title.Some? && !Blank(title.value) && 1 <= |title.value| <= MaxTitleLength
    ensures |msgs| <= 2
  {
    (if BlankOrNil(title) then ["Title can't be blank"] else [])
    + (if title.None? || |title.value| < 1 then ["Title is too short (minimum is 1 character)"] else [])
    + (if title.Some? && |title.value| > MaxTitleLength then ["Title is too long (maximum is 255 characters)"] else [])
  }

  /** The status validation's message: inclusion in `statuses.keys`, which
      every status the enum can hold satisfies and nil does not. */
  function StatusErrors(status: Option<Status>): (msgs: seq<string>)
    ensures msgs == [] <==> status.Some?
    ensures |msgs| <= 1
  {
    if status.None? then ["Status is not included in the list"] else []
  }

  /** `task.errors.full_messages` after validation, in declaration order:
      at most two title messages, then at most one status message. */
  function FullMessages(t: Task): (msgs: seq<string>)
    ensures |msgs| <= 3
    ensures msgs == [] <==> TitleErrors(t.title) == [] && StatusErrors(t.status) == []
  {
    TitleErrors(t.title) + StatusErrors(t.status)
  }

  predicate Valid(t: Task) {
    FullMessages(t) == []
  }

  /** A task is valid iff its title is and its status is one of the three. */
  lemma ValidTask(t: Task)
    ensures Valid(t) <==>
      t.title.Some? && !Blank(t.title.value) && |t.title.value| <= MaxTitleLength && t.status.Some?
  {
  }

  /** The empty title gives the presence and the length messages, in that order. */
  lemma EmptyTitleErrors(t: Task)
    requires t.title == Some("") && t.status.Some?
    ensures FullMessages(t) == ["Title can't be blank", "Title is too short (minimum is 1 character)"]
  {
  }

  /** `scope :by_status`: a known status filters on it; for any other
      argument the lambda yields nil and the scope leaves the relation as is. */
  function ByStatus(tasks: map<TaskId, Task>, status: string): (r: map<TaskId, Task>)
    ensures StatusOfKey(status).None? ==> r == tasks
    ensures StatusOfKey(status).Some? ==>
      forall id :: id in r <==> id in tasks && tasks[id].status == StatusOfKey(status)
    ensures forall id :: id in r ==> id in tasks && r[id] == tasks[id]
  {
    match StatusOfKey(status)
    case None => tasks
    case Some(s) => map id | id in tasks && tasks[id].status == Some(s) :: tasks[id]
  }

  /** `scope :due_before`: `due_date < date`; a NULL due date never compares true. */
  function DueBefore(tasks: map<TaskId, Task>, date: Date): (r: map<TaskId, Task>)
    ensures forall id :: id in r <==> id in tasks && tasks[id].dueDate.Some? && tasks[id].dueDate.value < date
    ensures forall id :: id in r ==> r[id] == tasks[id]
  {
    map id | id in tasks && tasks[id].dueDate.Some? && tasks[id].dueDate.value < date :: tasks[id]
  }

  /** `scope :due_after`: `due_date > date`. */
  function DueAfter(tasks: map<TaskId, Task>, date: Date): (r: map<TaskId, Task>)
    ensures forall id :: id in r <==> id in tasks && tasks[id].dueDate.Some? && tasks[id].dueDate.value > date
    ensures forall id :: id in r ==> r[id] == tasks[id]
  {
    map id | id in tasks && tasks[id].dueDate.Some? && tasks[id].dueDate.value > date :: tasks[id]
  }

  /** Both date scopes are strict: they are disjoint, a task due exactly on
      `date` or with no due date is in neither, and every other task is in one. */
  lemma DueScopesSplit(tasks: map<TaskId, Task>, date: Date, id: TaskId)
    requires id in tasks
    ensures !(id in DueBefore(tasks, date) && id in DueAfter(tasks, date))
    ensures id in DueBefore(tasks, date) || id in DueAfter(tasks, date)
        <==> tasks[id].dueDate.Some? && tasks[id].dueDate.value != date
  {
  }

  /** The three known statuses split the tasks that have a status. */
  lemma ByStatusPartition(tasks: map<TaskId, Task>, id: TaskId)
    requires id in tasks && tasks[id].status.Some?
    ensures id in ByStatus(tasks, Key(tasks[id].status.value))
    ensures forall s: Status :: s != tasks[id].status.value ==> id !in ByStatus(tasks, Key(s))
  {
    var s := tasks[id].status.value;
    assert StatusOfKey(Key(s)) == Some(s) by { StatusKeys(Key(s)); }
    forall s' : Status | s' != s
      ensures id !in ByStatus(tasks, Key(s'))
    {
      assert StatusOfKey(Key(s')) == Some(s') by { StatusKeys(Key(s')); }
    }
  }
}
