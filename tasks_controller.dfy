/**
 * The task resource of app/controllers/api/v1/tasks_controller.rb. Every
 * action reaches the table only through `current_user.tasks`, the tasks
 * the acting user owns, so a task of another user behaves exactly like a
 * task that does not exist. `Perform` is one request: the before_action
 * `authenticate_user!`, the action, and the `rescue_from` table.
 */
module TasksController {
  import opened RubyCore
  import opened Exceptions
  import opened Users
  import opened TaskModel
  import opened JwtToken
  import opened JwtAuthenticatable
  import opened ApplicationController

  /** The `task` hash of a request as the client sent it. For the four
      permitted keys, None is a key not sent and Some(None) a key sent as nil
      (JSON null). `userId` stands for every key outside the permitted ones,
      an owner the client might try to set among them. */
  datatype TaskInput = TaskInput(
    title: Option<Option<string>>,
    description: Option<Option<string>>,
    status: Option<Option<string>>,
    dueDate: Option<Option<Date>>,
    userId: Option<UserId>)

  const EmptyInput := TaskInput(None, None, None, None, None)

  /** `task_params`: `require(:task)` raises ParameterMissing when the hash
      is absent or has no key at all (a key sent as nil makes it non-empty);
      `permit` keeps title, description, status and due_date and drops
      everything else. */
  function TaskParamsOf(input: Option<TaskInput>): (r: Result<TaskParams>)
    ensures r.Raise? <==> input.None? || input.value == EmptyInput
    ensures r.Raise? ==> r.error == ParameterMissing("task")
    ensures r.Ok? ==> r.value.title == input.value.title && r.value.description == input.value.description
    ensures r.Ok? ==> r.value.status == input.value.status && r.value.dueDate == input.value.dueDate
  {
    match input
    case None => Raise(ParameterMissing("task"))
    case Some(i) =>
      if i == EmptyInput then Raise(ParameterMissing("task"))
      else Ok(TaskParams(i.title, i.description, i.status, i.dueDate))
  }

  /** `current_user.tasks`: the rows the user owns. */
  function OwnedBy(tasks: map<TaskId, Task>, user: UserId): (r: map<TaskId, Task>)
    ensures forall id :: id in r <==> id in tasks && tasks[id].userId == user
    ensures forall id :: id in r ==> r[id] == tasks[id]
  {
    map id | id in tasks && tasks[id].userId == user :: tasks[id]
  }

  const NotFoundPrefix: string := "Couldn't find Task with 'id'="

  /** The message of the RecordNotFound `find` raises: the fixed prefix and
      the id in decimal, whoever owns the row. */
  function NotFoundMessage(id: TaskId): (msg: string)
    ensures StartsWith(msg, NotFoundPrefix)
    ensures |msg| > |NotFoundPrefix|
    ensures forall i :: |NotFoundPrefix| <= i < |msg| ==> '0' <= msg[i] <= '9'
  {
    NotFoundPrefix + Decimal(id)
  }

  /** `current_user.tasks.find(id)`. */
  function FindOwned(tasks: map<TaskId, Task>, user: UserId, id: TaskId): (r: Result<Task>)
    ensures r.Ok? <==> id in tasks && tasks[id].userId == user
    ensures r.Ok? ==> r.value == tasks[id]
    ensures r.Raise? ==> r.error == RecordNotFound(NotFoundMessage(id))
  {
    if id in tasks && tasks[id].userId == user then Ok(tasks[id])
    else Raise(RecordNotFound(NotFoundMessage(id)))
  }

  /** A title the validations accept, written as the request sees it:
      present, not blank and at most 255 characters. */
  predicate TitleAccepted(title: Option<string>) {
    title.Some? && !Blank(title.value) && |title.value| <= MaxTitleLength
  }

  /** A status parameter that leaves a non-nil status: not sent (the old
      status stays), or sent as one of the enum's keys. */
  predicate StatusParamKept(status: Option<Option<string>>, current: Option<Status>) {
    if status.None? then current.Some?
    else status.value.Some? && StatusOfKey(status.value.value).Some?
  }

  /** A status parameter the enum refuses outright: sent as a string that is
      neither blank nor a key. */
  predicate StatusParamRefused(status: Option<Option<string>>) {
    status.Some? && status.value.Some? && CastStatus(status.value.value).Raise?
  }

  /** The row `create` inserts, or the exception it raises: permit the
      params, build a task owned by the user (status defaulting to
      'pending'), assign the params, validate. It succeeds exactly when the
      hash is present and non-empty, the title is sent, non-blank and at most
      255 characters, and the status is not sent or is one of the keys. */
  function CreateOutcome(user: UserId, input: Option<TaskInput>): (r: Result<Task>)
    ensures r.Ok? <==>
      && input.Some? && input.value != EmptyInput
      && TitleAccepted(Flatten(input.value.title))
      && StatusParamKept(input.value.status, Some(Pending))
    ensures r.Ok? ==> r.value.userId == user && Valid(r.value)
    ensures r.Ok? ==> r.value.title == Flatten(input.value.title) && r.value.description == Flatten(input.value.description)
    ensures r.Ok? ==> r.value.dueDate == Flatten(input.value.dueDate)
    ensures r.Ok? && input.value.status.None? ==> r.value.status == Some(Pending)
    ensures r.Ok? && input.value.status.Some? ==> Key(r.value.status.value) == input.value.status.value.value
    ensures input.None? || input.value == EmptyInput ==> r == Raise(ParameterMissing("task"))
    ensures input.Some? && input.value != EmptyInput && StatusParamRefused(input.value.status) ==>
      r == Raise(ArgumentError(InvalidStatusMessage(input.value.status.value.value)))
    ensures r.Raise? ==> r.error.ParameterMissing? || r.error.ArgumentError? || r.error.RecordInvalid?
    ensures r.Raise? && r.error.RecordInvalid? ==>
      && TaskParamsOf(input).Ok? && Assign(NewTask(user), TaskParamsOf(input).value).Ok?
      && r.error.messages == FullMessages(Assign(NewTask(user), TaskParamsOf(input).value).value)
      && r.error.messages != []
  {
    match TaskParamsOf(input)
    case Raise(e) => Raise(e)
    case Ok(p) =>
      match Assign(NewTask(user), p)
      case Raise(e) => Raise(e)
      case Ok(t) => if FullMessages(t) != [] then Raise(RecordInvalid(FullMessages(t))) else Ok(t)
  }

  /** The row `update` writes back, or the exception it raises: find within
      the user's tasks, permit the params, assign them, validate. It succeeds
      exactly when the user owns the task, the hash is present and non-empty,
      the title it leaves is present, non-blank and at most 255 characters,
      and the status it leaves is one of the enum's. */
  function UpdateOutcome(tasks: map<TaskId, Task>, user: UserId, id: TaskId, input: Option<TaskInput>): (r: Result<Task>)
    ensures r.Ok? <==>
      && id in tasks && tasks[id].userId == user
      && input.Some? && input.value != EmptyInput
      && TitleAccepted(input.value.title.GetOr(tasks[id].title))
      && StatusParamKept(input.value.status, tasks[id].status)
    ensures r.Ok? ==> id in tasks && tasks[id].userId == user && r.value.userId == user && Valid(r.value)
    ensures r.Ok? ==> r.value.title == (if input.value.title.Some? then input.value.title.value else tasks[id].title)
    ensures r.Ok? ==> r.value.description == (if input.value.description.Some? then input.value.description.value else tasks[id].description)
    ensures r.Ok? ==> r.value.dueDate == (if input.value.dueDate.Some? then input.value.dueDate.value else tasks[id].dueDate)
    ensures r.Ok? ==> r.value.status == (if input.value.status.Some? then CastStatusParam(input.value.status.value).value else tasks[id].status)
    ensures FindOwned(tasks, user, id).Raise? ==> r == Raise(RecordNotFound(NotFoundMessage(id)))
    ensures FindOwned(tasks, user, id).Ok? && (input.None? || input.value == EmptyInput) ==> r == Raise(ParameterMissing("task"))
    ensures FindOwned(tasks, user, id).Ok? && input.Some? && input.value != EmptyInput && StatusParamRefused(input.value.status) ==>
      r == Raise(ArgumentError(InvalidStatusMessage(input.value.status.value.value)))
    ensures r.Raise? ==> r.error.RecordNotFound? || r.error.ParameterMissing? || r.error.ArgumentError? || r.error.RecordInvalid?
    ensures r.Raise? && r.error.RecordInvalid? ==>
      && id in tasks && TaskParamsOf(input).Ok? && Assign(tasks[id], TaskParamsOf(input).value).Ok?
      && r.error.messages == FullMessages(Assign(tasks[id], TaskParamsOf(input).value).value)
      && r.error.messages != []
  {
    match FindOwned(tasks, user, id)
    case Raise(e) => Raise(e)
    case Ok(t) =>
      match TaskParamsOf(input)
      case Raise(e) => Raise(e)
      case Ok(p) =>
        match Assign(t, p)
        case Raise(e) => Raise(e)
        case Ok(t') => if FullMessages(t') != [] then Raise(RecordInvalid(FullMessages(t'))) else Ok(t')
  }

  /** A task of another user is indistinguishable from a missing one: show,
      update and destroy see the same outcome as if the row were absent. */
  lemma OtherOwnerLikeAbsent(tasks: map<TaskId, Task>, user: UserId, id: TaskId, input: Option<TaskInput>)
    requires id in tasks && tasks[id].userId != user
    ensures FindOwned(tasks, user, id) == FindOwned(tasks - {id}, user, id)
    ensures FindOwned(tasks, user, id) == Raise(RecordNotFound(NotFoundMessage(id)))
    ensures UpdateOutcome(tasks, user, id, input) == UpdateOutcome(tasks - {id}, user, id, input)
  {
  }

  /** The owner never comes from the input: an owner key sent by the client
      changes nothing, as long as some permitted key keeps the hash non-empty
      (without one, `require` sees only the owner key in the one case and an
      empty hash in the other). */
  lemma CreateIgnoresClientOwner(user: UserId, input: TaskInput, claimed: Option<UserId>)
    requires input.(userId := None) != EmptyInput
    ensures CreateOutcome(user, Some(input)) == CreateOutcome(user, Some(input.(userId := claimed)))
  {
  }

  /** A blank title is a validation failure (422), not an exception that escapes. */
  lemma CreateBlankTitle(user: UserId, input: TaskInput)
    requires input.title == Some(Some(""))
    requires input.status.None? || input.status == Some(Some("pending"))
    ensures CreateOutcome(user, Some(input)) ==
      Raise(RecordInvalid(["Title can't be blank", "Title is too short (minimum is 1 character)"]))
    ensures RescueFrom(CreateOutcome(user, Some(input)).error).value.status == 422
  {
    assert input != EmptyInput;
    var t := Assign(NewTask(user), TaskParamsOf(Some(input)).value);
    assert t.Ok? && t.value.status == Some(Pending) by {
      if input.status.Some? {
        assert CastStatus("pending") == Ok(Some(Pending)) by {
          assert !Blank("pending") by { assert !IsBlankChar("pending"[0]); }
        }
      }
    }
    EmptyTitleErrors(t.value);
  }

  /** A status outside the enum raises ArgumentError immediately; it is never
      coerced and no handler of the `rescue_from` table catches it. */
  lemma CreateInvalidStatus(user: UserId, input: TaskInput)
    requires input.status == Some(Some("invalid_status"))
    ensures CreateOutcome(user, Some(input)) == Raise(ArgumentError(InvalidStatusMessage("invalid_status")))
    ensures RescueFrom(CreateOutcome(user, Some(input)).error).None?
  {
    assert input != EmptyInput;
    var p := TaskParamsOf(Some(input));
    assert p.Ok? && p.value.status == Some(Some("invalid_status"));
    assert CastStatus("invalid_status") == Raise(ArgumentError(InvalidStatusMessage("invalid_status"))) by {
      assert !Blank("invalid_status") by { assert !IsBlankChar("invalid_status"[0]); }
      assert StatusOfKey("invalid_status").None?;
    }
    assert Assign(NewTask(user), p.value) == Raise(ArgumentError(InvalidStatusMessage("invalid_status")));
  }

  /** A status sent as nil is not the default: it clears the status, and
      the inclusion validation refuses the task (422). */
  lemma CreateNilStatus(user: UserId, input: TaskInput)
    requires input.status == Some(None)
    requires TitleAccepted(Flatten(input.title))
    ensures CreateOutcome(user, Some(input)) == Raise(RecordInvalid(["Status is not included in the list"]))
  {
    var t := Assign(NewTask(user), TaskParamsOf(Some(input)).value).value;
    assert t.status.None?;
    assert TitleErrors(t.title) == [];
  }

  /** A description sent as nil clears it; nothing else changes. */
  lemma UpdateNilDescription(tasks: map<TaskId, Task>, user: UserId, id: TaskId)
    requires id in tasks && tasks[id].userId == user && Valid(tasks[id])
    ensures UpdateOutcome(tasks, user, id, Some(TaskInput(None, Some(None), None, None, None))) ==
      Ok(tasks[id].(description := None))
  {
    ValidTask(tasks[id]);
  }

  /** What a task action renders. */
  datatype TaskBody = TaskList(tasks: map<TaskId, Task>) | TaskJson(id: TaskId, task: Task)

  /** The task table: rows by id, and the next id the database hands out. */
  class TaskStore {
    var tasks: map<TaskId, Task>
    var nextId: TaskId

    ghost predicate Valid()
      reads this
    {
      forall id :: id in tasks ==> id < nextId
    }

    constructor ()
      ensures Valid() && tasks == map[]
    {
      tasks := map[];
      nextId := 1;
    }

    /** `index`: exactly the user's tasks. */
    method Index(user: UserId) returns (r: map<TaskId, Task>)
      ensures forall id :: id in r <==> id in tasks && tasks[id].userId == user
      ensures forall id :: id in r ==> r[id] == tasks[id]
      ensures r == OwnedBy(tasks, user)
    {
      r := OwnedBy(tasks, user);
    }

    /** `show`: the user's task with this id, or RecordNotFound. */
    method Show(user: UserId, id: TaskId) returns (r: Result<Task>)
      ensures r.Ok? <==> id in tasks && tasks[id].userId == user
      ensures r.Ok? ==> r.value == tasks[id]
      ensures r.Raise? ==> r == Raise(RecordNotFound(NotFoundMessage(id)))
    {
      r := FindOwned(tasks, user, id);
    }

    /** `create`: insert the built task under a fresh id, or raise and leave
        the table as it was. */
    method Create(user: UserId, input: Option<TaskInput>) returns (r: Result<TaskId>)
      requires Valid()
      modifies this
      ensures Valid()
      ensures CreateOutcome(user, input).Raise? ==>
        r == Raise(CreateOutcome(user, input).error) && tasks == old(tasks) && nextId == old(nextId)
      ensures CreateOutcome(user, input).Ok? ==>
        && r == Ok(old(nextId)) && nextId == old(nextId) + 1 && r.value !in old(tasks)
        && tasks == old(tasks)[r.value := CreateOutcome(user, input).value]
        && |tasks| == |old(tasks)| + 1
    {
      var outcome := CreateOutcome(user, input);
      if outcome.Raise? {
        r := Raise(outcome.error);
        return;
      }
      assert nextId !in tasks;
      tasks := tasks[nextId := outcome.value];
      r := Ok(nextId);
      nextId := nextId + 1;
    }

    /** `update`: write back the updated task, or raise and leave the table
        as it was. */
    method Update(user: UserId, id: TaskId, input: Option<TaskInput>) returns (r: Result<Task>)
      requires Valid()
      modifies this
      ensures Valid() && nextId == old(nextId)
      ensures r == UpdateOutcome(old(tasks), user, id, input)
      ensures r.Raise? ==> tasks == old(tasks)
      ensures r.Ok? ==> tasks == old(tasks)[id := r.value] && |tasks| == |old(tasks)|
    {
      r := UpdateOutcome(tasks, user, id, input);
      if r.Ok? {
        tasks := tasks[id := r.value];
      }
    }

    /** `destroy`: remove the user's task with this id, or raise RecordNotFound
        and leave the table as it was. */
    method Destroy(user: UserId, id: TaskId) returns (r: Result<Task>)
      requires Valid()
      modifies this
      ensures Valid() && nextId == old(nextId)
      ensures r == FindOwned(old(tasks), user, id)
      ensures r.Raise? ==> tasks == old(tasks)
      ensures r.Ok? ==> tasks == old(tasks) - {id} && |tasks| == |old(tasks)| - 1
    {
      r := FindOwned(tasks, user, id);
      if r.Ok? {
        tasks := tasks - {id};
      }
    }
  }

  datatype Action =
    | IndexTasks
    | ShowTask(id: TaskId)
    | CreateTask(input: Option<TaskInput>)
    | UpdateTask(id: TaskId, input: Option<TaskInput>)
    | DestroyTask(id: TaskId)

  /** What an action answers and the task table it leaves behind. */
  datatype Step = Step(response: Response<TaskBody>, tasks: map<TaskId, Task>)

  /** One action for the acting `user` on the table `tasks`, the database
      handing out `nextId` to a new row; an exception it raises goes through
      `rescue_from`. A failure or a read leaves the table as it was, and a
      task the user does not own is answered 404 by show, update and destroy. */
  function Dispatch(tasks: map<TaskId, Task>, nextId: TaskId, user: UserId, action: Action): (r: Step)
    ensures r.response.Errors? || r.response.Unhandled? ==> r.tasks == tasks
    ensures action.IndexTasks? || action.ShowTask? ==> r.tasks == tasks
    ensures action.IndexTasks? ==> r.response == Render(StatusOk, TaskList(OwnedBy(tasks, user)))
    ensures (action.ShowTask? || action.UpdateTask? || action.DestroyTask?) && FindOwned(tasks, user, action.id).Raise? ==>
      r == Step(Errors(NotFoundError(NotFoundMessage(action.id))), tasks)
    ensures action.ShowTask? && FindOwned(tasks, user, action.id).Ok? ==>
      r.response == Render(StatusOk, TaskJson(action.id, tasks[action.id]))
    ensures action.CreateTask? ==> (r.response.Render? <==> CreateOutcome(user, action.input).Ok?)
    ensures action.CreateTask? && r.response.Render? ==>
      && r.response == Render(StatusCreated, TaskJson(nextId, CreateOutcome(user, action.input).value))
      && r.tasks == tasks[nextId := CreateOutcome(user, action.input).value]
    ensures action.UpdateTask? ==> (r.response.Render? <==> UpdateOutcome(tasks, user, action.id, action.input).Ok?)
    ensures action.UpdateTask? && r.response.Render? ==>
      var updated := UpdateOutcome(tasks, user, action.id, action.input).value;
      r.response == Render(StatusOk, TaskJson(action.id, updated)) && r.tasks == tasks[action.id := updated]
    ensures action.DestroyTask? && FindOwned(tasks, user, action.id).Ok? ==>
      r == Step(Head(StatusNoContent), tasks - {action.id})
  {
    match action
    case IndexTasks => Step(Render(StatusOk, TaskList(OwnedBy(tasks, user))), tasks)
    case ShowTask(id) =>
      (match FindOwned(tasks, user, id)
       case Ok(t) => Step(Render(StatusOk, TaskJson(id, t)), tasks)
       case Raise(e) => Step(Rescue(e), tasks))
    case CreateTask(input) =>
      (match CreateOutcome(user, input)
       case Ok(t) => Step(Render(StatusCreated, TaskJson(nextId, t)), tasks[nextId := t])
       case Raise(e) => Step(Rescue(e), tasks))
    case UpdateTask(id, input) =>
      (match UpdateOutcome(tasks, user, id, input)
       case Ok(t) => Step(Render(StatusOk, TaskJson(id, t)), tasks[id := t])
       case Raise(e) => Step(Rescue(e), tasks))
    case DestroyTask(id) =>
      (match FindOwned(tasks, user, id)
       case Ok(_) => Step(Head(StatusNoContent), tasks - {id})
       case Raise(e) => Step(Rescue(e), tasks))
  }

  /** Tasks of users other than `user` are all still there, unchanged. */
  ghost predicate OthersUnchanged(before: map<TaskId, Task>, after: map<TaskId, Task>, user: UserId) {
    forall id :: id in before && before[id].userId != user ==> id in after && after[id] == before[id]
  }

  /** Every row that is new or changed belongs to `user`. */
  ghost predicate WritesOwnedBy(before: map<TaskId, Task>, after: map<TaskId, Task>, user: UserId) {
    forall id :: id in after && (id !in before || after[id] != before[id]) ==> after[id].userId == user
  }

  /** Writing a row the user owns, over a row the user owned or none, keeps
      every other user's rows and writes only the user's. */
  lemma OwnedWrite(before: map<TaskId, Task>, id: TaskId, t: Task, user: UserId)
    requires t.userId == user
    requires id in before ==> before[id].userId == user
    ensures OthersUnchanged(before, before[id := t], user)
    ensures WritesOwnedBy(before, before[id := t], user)
  {
  }

  /** Removing a row the user owns keeps every other user's rows. */
  lemma OwnedRemove(before: map<TaskId, Task>, id: TaskId, user: UserId)
    requires id in before ==> before[id].userId == user
    ensures OthersUnchanged(before, before - {id}, user)
    ensures WritesOwnedBy(before, before - {id}, user)
  {
  }

  /** Tenant isolation: whatever the action, the rows of other users are
      untouched and every row written belongs to the acting user, as long as
      the id the database hands out is fresh. */
  lemma DispatchConfined(tasks: map<TaskId, Task>, nextId: TaskId, user: UserId, action: Action)
    requires forall id :: id in tasks ==> id < nextId
    ensures OthersUnchanged(tasks, Dispatch(tasks, nextId, user, action).tasks, user)
    ensures WritesOwnedBy(tasks, Dispatch(tasks, nextId, user, action).tasks, user)
  {
    var r := Dispatch(tasks, nextId, user, action);
    match action
    case IndexTasks =>
    case ShowTask(_) =>
    case CreateTask(input) =>
      if r.response.Render? {
        OwnedWrite(tasks, nextId, CreateOutcome(user, input).value, user);
      }
    case UpdateTask(id, input) =>
      if r.response.Render? {
        OwnedWrite(tasks, id, UpdateOutcome(tasks, user, id, input).value, user);
      }
    case DestroyTask(id) =>
      if FindOwned(tasks, user, id).Ok? {
        OwnedRemove(tasks, id, user);
      }
  }

  /** A successful create grows the table by exactly one row, the new one. */
  lemma DispatchCreateGrows(tasks: map<TaskId, Task>, nextId: TaskId, user: UserId, input: Option<TaskInput>)
    requires forall id :: id in tasks ==> id < nextId
    requires CreateOutcome(user, input).Ok?
    ensures |Dispatch(tasks, nextId, user, CreateTask(input)).tasks| == |tasks| + 1
    ensures Dispatch(tasks, nextId, user, CreateTask(input)).tasks.Keys == tasks.Keys + {nextId}
  {
    assert nextId !in tasks;
  }

  /** The action itself, run for the acting `user` once authentication has
      succeeded: the response and the new table are those `Dispatch` gives
      for the table and the id counter as they were. */
  method Act(store: TaskStore, user: UserId, action: Action) returns (response: Response<TaskBody>)
    requires store.Valid()
    modifies store
    ensures store.Valid()
    ensures Step(response, store.tasks) == Dispatch(old(store.tasks), old(store.nextId), user, action)
    ensures OthersUnchanged(old(store.tasks), store.tasks, user)
    ensures WritesOwnedBy(old(store.tasks), store.tasks, user)
  {
    DispatchConfined(store.tasks, store.nextId, user, action);
    match action {
      case IndexTasks =>
        var tasks := store.Index(user);
        response := Render(StatusOk, TaskList(tasks));
      case ShowTask(id) =>
        var r := store.Show(user, id);
        response := if r.Ok? then Render(StatusOk, TaskJson(id, r.value)) else Rescue(r.error);
      case CreateTask(input) =>
        var r := store.Create(user, input);
        response := if r.Ok? then Render(StatusCreated, TaskJson(r.value, store.tasks[r.value])) else Rescue(r.error);
      case UpdateTask(id, input) =>
        var r := store.Update(user, id, input);
        response := if r.Ok? then Render(StatusOk, TaskJson(id, r.value)) else Rescue(r.error);
      case DestroyTask(id) =>
        var r := store.Destroy(user, id);
        response := if r.Ok? then Head(StatusNoContent) else Rescue(r.error);
    }
  }

  /** One request to the task resource: `authenticate_user!` runs first as
      the before_action and, when it fails, the action never runs and the
      401 envelope is rendered; otherwise the action runs for the user the
      token names, with `Dispatch`'s response and new table. */
  method Perform(
    controller: Controller, store: TaskStore, users: UserTable,
    authorization: Option<string>, parse: Parser, secret: string, now: int, action: Action)
    returns (response: Response<TaskBody>)
    requires store.Valid()
    modifies controller, store
    ensures store.Valid()
    ensures users.rows == old(users.rows)
    ensures AuthenticateRequest(authorization, parse, secret, now, users.rows).Raise? ==>
      && response == Errors(AuthenticationError())
      && store.tasks == old(store.tasks)
      && controller.currentUser == old(controller.currentUser)
    ensures AuthenticateRequest(authorization, parse, secret, now, users.rows).Ok? ==>
      var user := AuthenticateRequest(authorization, parse, secret, now, users.rows).value;
      && controller.currentUser == Some(user)
      && Step(response, store.tasks) == Dispatch(old(store.tasks), old(store.nextId), user.id, action)
      && OthersUnchanged(old(store.tasks), store.tasks, user.id)
      && WritesOwnedBy(old(store.tasks), store.tasks, user.id)
  {
    var auth := controller.AuthenticateUser(authorization, parse, secret, now, users);
    if auth.Raise? {
      response := Rescue(auth.error);
      return;
    }
    response := Act(store, auth.value.id, action);
  }
}
