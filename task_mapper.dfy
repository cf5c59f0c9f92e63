/**
 * TaskMapper: the partial update of a task from a request, the construction of a new task from
 * a request, and the response built from a task.
 */
module TaskMapping {
  import opened Wrappers
  import opened Enums
  import opened Tasks

  /** A task after an update, and whether the update completed or threw part-way. */
  datatype Applied = Applied(task: TaskRecord, outcome: Result<()>)

  /**
   * What `updateFromRequest` does: each non-null request property replaces the task's, in the
   * order title, description, status, priority. A status or priority that `fromValue` rejects
   * throws, leaving the properties set before it changed and those after it untouched.
   */
  function ApplyRequest(t: TaskRecord, r: TaskRequest): Applied {
    var t1 := if r.title.Some? then t.(title := r.title) else t;
    var t2 := if r.description.Some? then t1.(description := r.description) else t1;
    if r.status.Some? && StatusFromValue(r.status).Failure? then
      Applied(t2, Failure(StatusFromValue(r.status).error))
    else
      var t3 := if r.status.Some? then t2.(status := StatusFromValue(r.status).value) else t2;
      if r.priority.Some? && PriorityFromValue(r.priority).Failure? then
        Applied(t3, Failure(PriorityFromValue(r.priority).error))
      else
        var t4 := if r.priority.Some? then t3.(priority := PriorityFromValue(r.priority).value) else t3;
        Applied(t4, Success(()))
  }

  /** `updateFromRequest(task, request)`: the task's properties are updated in place. */
  method UpdateFromRequest(task: Task, request: TaskRequest) returns (outcome: Result<()>)
    modifies task
    ensures Applied(task.Snapshot(), outcome) == ApplyRequest(old(task.Snapshot()), request)
  {
    if request.title.Some? {
      task.title := request.title;
    }
    if request.description.Some? {
      task.description := request.description;
    }
    if request.status.Some? {
      var s := StatusFromValue(request.status);
      if s.Failure? {
        return Failure(s.error);
      }
      task.status := s.value;
    }
    if request.priority.Some? {
      var p := PriorityFromValue(request.priority);
      if p.Failure? {
        return Failure(p.error);
      }
      task.priority := p.value;
    }
    return Success(());
  }

  /** Which properties an update replaces, and when it fails. */
  lemma ApplyRequestFields(t: TaskRecord, r: TaskRequest)
    ensures var a := ApplyRequest(t, r);
      && a.task.title == (if r.title.Some? then r.title else t.title)
      && a.task.description == (if r.description.Some? then r.description else t.description)
      && (a.outcome.Failure? <==>
            (r.status.Some? && StatusFromValue(r.status).Failure?)
            || (r.priority.Some? && PriorityFromValue(r.priority).Failure?))
      && (a.outcome.Success? ==>
            && a.task.status == (if r.status.Some? then StatusFromValue(r.status).value else t.status)
            && a.task.priority == (if r.priority.Some? then PriorityFromValue(r.priority).value else t.priority))
      && (r.status.Some? && StatusFromValue(r.status).Failure? ==>
            a.task.status == t.status && a.task.priority == t.priority)
  {
  }

  /** An update never touches the id, the creator, the assignee or the timestamps. */
  lemma ApplyRequestKeeps(t: TaskRecord, r: TaskRequest)
    ensures var u := ApplyRequest(t, r).task;
      u.id == t.id && u.createdBy == t.createdBy && u.assignedTo == t.assignedTo
      && u.createdAt == t.createdAt && u.updatedAt == t.updatedAt
  {
  }

  /** Applying the same request twice is the same as applying it once. */
  lemma ApplyRequestIdempotent(t: TaskRecord, r: TaskRequest)
    ensures ApplyRequest(ApplyRequest(t, r).task, r) == ApplyRequest(t, r)
  {
  }

  /** The request that carries a response's own title, description, status and priority. */
  function RequestEchoing(resp: TaskResponse): TaskRequest {
    TaskRequest(resp.title, resp.description, Some(resp.status), Some(resp.priority), None)
  }

  /**
   * `toResponse`: id, title and description are copied, status and priority are written as
   * their values, and the creator's and assignee's ids and usernames are copied.
   */
  function ToResponse(t: TaskRecord): (resp: TaskResponse)
    requires t.createdBy.Some? && t.assignedTo.Some?
    ensures resp.id == t.id && resp.title == t.title && resp.description == t.description
    ensures resp.status == StatusValue(t.status) && resp.priority == PriorityValue(t.priority)
    ensures StatusFromValue(Some(resp.status)) == Success(t.status)
    ensures PriorityFromValue(Some(resp.priority)) == Success(t.priority)
    ensures resp.createdById == t.createdBy.value.id && resp.createdByUsername == t.createdBy.value.username
    ensures resp.assignedToId == t.assignedTo.value.id && resp.assignedToUsername == t.assignedTo.value.username
    ensures resp.createdAt == t.createdAt && resp.updatedAt == t.updatedAt
  {
    StatusRoundTrip(t.status);
    PriorityRoundTrip(t.priority);
    TaskResponse(t.id, t.title, t.description, StatusValue(t.status), PriorityValue(t.priority),
                 t.createdBy.value.id, t.createdBy.value.username,
                 t.assignedTo.value.id, t.assignedTo.value.username, t.createdAt, t.updatedAt)
  }

  /** Sending a task's own response back as an update changes nothing and succeeds. */
  lemma {:induction false} EchoedUpdateIsNoOp(t: TaskRecord)
    requires t.createdBy.Some? && t.assignedTo.Some?
    ensures ApplyRequest(t, RequestEchoing(ToResponse(t))) == Applied(t, Success(()))
  {
    var resp := ToResponse(t);
    assert StatusFromValue(Some(resp.status)) == Success(t.status);
    assert PriorityFromValue(Some(resp.priority)) == Success(t.priority);
  }

  /**
   * `toEntity(request, creator, assignee)`: a new task with the request's title and
   * description, status left PENDING, priority from `fromValue` when given (else MEDIUM), and
   * the creator and assignee as passed. A priority `fromValue` rejects throws.
   */
  method ToEntity(request: TaskRequest, creator: Option<User>, assignee: Option<User>)
    returns (r: Result<Task>)
    ensures r.Failure? <==> request.priority.Some? && PriorityFromValue(request.priority).Failure?
    ensures r.Success? ==> fresh(r.value)
    ensures r.Success? ==>
              r.value.Snapshot() == NewTaskRecord.(
                title := request.title, description := request.description,
                priority := if request.priority.Some? then PriorityFromValue(request.priority).value else Medium,
                createdBy := creator, assignedTo := assignee)
  {
    var task := new Task();
    task.title := request.title;
    task.description := request.description;
    if request.priority.Some? {
      var p := PriorityFromValue(request.priority);
      if p.Failure? {
        return Failure(p.error);
      }
      task.priority := p.value;
    }
    task.createdBy := creator;
    task.assignedTo := assignee;
    return Success(task);
  }
}
