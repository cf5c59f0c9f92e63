/**
 * The parts of TaskService that decide a task's assignee and apply an update to a loaded task.
 * The user lookup by id is a parameter: it answers None where the repository finds nobody.
 */
module TaskService {
  import opened Wrappers
  import opened Enums
  import opened Tasks

  /**
   * `determineTaskAssignee`: the user the request names, looked up by id (UserNotFoundException
   * when there is none), or the creator when the request names nobody.
   */
  function DetermineTaskAssignee(request: TaskRequest, creator: User, findById: int -> Option<User>)
    : (r: Result<User>)
    ensures request.assignedTo.None? ==> r == Success(creator)
    ensures request.assignedTo.Some? ==>
              (r.Success? <==> findById(request.assignedTo.value).Some?)
              && (r.Success? ==> r.value == findById(request.assignedTo.value).value)
  {
    if request.assignedTo.Some? then
      match findById(request.assignedTo.value)
      case Some(u) => Success(u)
      case None => Failure("User not found with id: " + Strings.LongToString(request.assignedTo.value))
    else Success(creator)
  }

  /** A task after `updateTaskFields`, and its result: statusChanged, or the exception thrown. */
  datatype FieldsUpdated = FieldsUpdated(task: TaskRecord, statusChanged: Result<bool>)

  /**
   * What `updateTaskFields` does: title and description are always overwritten, even with null;
   * a non-null status and priority are read with `valueOf` (exact names), which throws on any
   * other string after the earlier properties were already set.
   */
  function UpdateFields(t: TaskRecord, r: TaskRequest): FieldsUpdated {
    var t1 := t.(title := r.title, description := r.description);
    if r.status.Some? && StatusValueOf(r.status.value).Failure? then
      FieldsUpdated(t1, Failure(StatusValueOf(r.status.value).error))
    else
      var changed := r.status.Some? && StatusValueOf(r.status.value).value != t.status;
      var t2 := if r.status.Some? then t1.(status := StatusValueOf(r.status.value).value) else t1;
      if r.priority.Some? && PriorityValueOf(r.priority.value).Failure? then
        FieldsUpdated(t2, Failure(PriorityValueOf(r.priority.value).error))
      else
        var t3 := if r.priority.Some? then t2.(priority := PriorityValueOf(r.priority.value).value) else t2;
        FieldsUpdated(t3, Success(changed))
  }

  /** `updateTaskFields(task, request)`, on the entity in place. */
  method UpdateTaskFields(task: Task, request: TaskRequest) returns (statusChanged: Result<bool>)
    modifies task
    ensures FieldsUpdated(task.Snapshot(), statusChanged) == UpdateFields(old(task.Snapshot()), request)
  {
    task.title := request.title;
    task.description := request.description;
    var changed := false;
    if request.status.Some? {
      var s := StatusValueOf(request.status.value);
      if s.Failure? {
        return Failure(s.error);
      }
      changed := s.value != task.status;
      task.status := s.value;
    }
    if request.priority.Some? {
      var p := PriorityValueOf(request.priority.value);
      if p.Failure? {
        return Failure(p.error);
      }
      task.priority := p.value;
    }
    return Success(changed);
  }

  /**
   * The update rules: title and description always take the request's values; statusChanged
   * holds iff the request names a status other than the old one; a null priority keeps the old.
   */
  lemma UpdateFieldsRules(t: TaskRecord, r: TaskRequest)
    ensures var u := UpdateFields(t, r);
      && u.task.title == r.title && u.task.description == r.description
      && (u.statusChanged.Success? ==>
            (u.statusChanged.value <==> r.status.Some? && StatusValue(t.status) != r.status.value))
      && (u.statusChanged.Success? && r.status.Some? ==> StatusValue(u.task.status) == r.status.value)
      && (r.priority.None? ==> u.task.priority == t.priority)
      && (u.statusChanged.Failure? <==>
            (r.status.Some? && forall s: TaskStatus :: StatusValue(s) != r.status.value)
            || (r.priority.Some? && forall p: TaskPriority :: PriorityValue(p) != r.priority.value))
      && u.task.id == t.id && u.task.createdBy == t.createdBy && u.task.assignedTo == t.assignedTo
  {
    if r.status.Some? && StatusValueOf(r.status.value).Success? {
      var s := StatusValueOf(r.status.value).value;
      if StatusValue(t.status) == r.status.value {
        StatusValueInjective(t.status, s);
      }
    }
  }

  lemma StatusValueInjective(a: TaskStatus, b: TaskStatus)
    requires StatusValue(a) == StatusValue(b)
    ensures a == b
  {
  }

  /** A task after `handleAssigneeUpdate`, and its result: assigneeChanged, or the exception. */
  datatype AssigneeUpdated = AssigneeUpdated(task: TaskRecord, assigneeChanged: Result<bool>)

  /**
   * What `handleAssigneeUpdate` does: only when the request names an assignee and the updater
   * is the task's creator is the named user looked up (UserNotFoundException when missing) and
   * made the assignee; the result says whether that user differs from the old assignee.
   */
  function UpdateAssignee(t: TaskRecord, r: TaskRequest, user: User, findById: int -> Option<User>)
    : AssigneeUpdated
    requires r.assignedTo.Some? ==> t.createdBy.Some?
    requires r.assignedTo.Some? && t.createdBy == Some(user) ==> t.assignedTo.Some?
  {
    if r.assignedTo.Some? && t.createdBy.value == user then
      match findById(r.assignedTo.value)
      case None => AssigneeUpdated(t, Failure("User not found with id: " + Strings.LongToString(r.assignedTo.value)))
      case Some(newAssignee) =>
        AssigneeUpdated(t.(assignedTo := Some(newAssignee)), Success(t.assignedTo.value != newAssignee))
    else AssigneeUpdated(t, Success(false))
  }

  /** `handleAssigneeUpdate(task, request, user)`, on the entity in place. */
  method HandleAssigneeUpdate(task: Task, request: TaskRequest, user: User, findById: int -> Option<User>)
    returns (assigneeChanged: Result<bool>)
    requires request.assignedTo.Some? ==> task.createdBy.Some?
    requires request.assignedTo.Some? && task.createdBy == Some(user) ==> task.assignedTo.Some?
    modifies task
    ensures AssigneeUpdated(task.Snapshot(), assigneeChanged)
         == UpdateAssignee(old(task.Snapshot()), request, user, findById)
  {
    if request.assignedTo.Some? && task.createdBy.value == user {
      var found := findById(request.assignedTo.value);
      if found.None? {
        return Failure("User not found with id: " + Strings.LongToString(request.assignedTo.value));
      }
      var newAssignee := found.value;
      var changed := task.assignedTo.value != newAssignee;
      task.assignedTo := Some(newAssignee);
      return Success(changed);
    }
    return Success(false);
  }

  /**
   * The assignee changes only when the request names one and the updater is the creator, and
   * the result is true exactly when the new assignee differs from the old one.
   */
  lemma UpdateAssigneeRules(t: TaskRecord, r: TaskRequest, user: User, findById: int -> Option<User>)
    requires Persisted(t)
    ensures var u := UpdateAssignee(t, r, user, findById);
      && (u.task.assignedTo != t.assignedTo ==> r.assignedTo.Some? && t.createdBy == Some(user))
      && (u.assigneeChanged.Success? ==> (u.assigneeChanged.value <==> u.task.assignedTo != t.assignedTo))
      && (u.assigneeChanged.Failure? <==>
            r.assignedTo.Some? && t.createdBy == Some(user) && findById(r.assignedTo.value).None?)
      && u.task.(assignedTo := t.assignedTo) == t
  {
  }
}
