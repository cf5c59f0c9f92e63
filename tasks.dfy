/**
 * The Task entity, the User it refers to, and the request and response shapes of the task API.
 */
module Tasks {
  import opened Wrappers
  import opened Enums

  /**
   * A user as the task code sees it: its database id and its username. Two users are equal
   * exactly when both agree.
   */
  datatype User = User(id: int, username: string)

  /** The values of a Task entity's properties; instants are opaque numbers. */
  datatype TaskRecord = TaskRecord(
    id: Option<int>,
    title: Option<string>,
    description: Option<string>,
    status: TaskStatus,
    priority: TaskPriority,
    createdBy: Option<User>,
    assignedTo: Option<User>,
    createdAt: Option<int>,
    updatedAt: Option<int>)

  /** `new Task()`: every property null except status PENDING and priority MEDIUM. */
  const NewTaskRecord: TaskRecord :=
    TaskRecord(None, None, None, Pending, Medium, None, None, None, None)

  /** A task as stored: the database assigned its id and both users are set (non-null columns). */
  predicate Persisted(t: TaskRecord) {
    t.id.Some? && t.createdBy.Some? && t.assignedTo.Some?
  }

  /** The JPA entity, whose setters the mapper and the task service call. */
  class Task {
    var id: Option<int>
    var title: Option<string>
    var description: Option<string>
    var status: TaskStatus
    var priority: TaskPriority
    var createdBy: Option<User>
    var assignedTo: Option<User>
    var createdAt: Option<int>
    var updatedAt: Option<int>

    /** The current values of all properties. */
    function Snapshot(): TaskRecord
      reads this
    {
      TaskRecord(id, title, description, status, priority, createdBy, assignedTo, createdAt, updatedAt)
    }

    /** `new Task()`: status and priority take their field defaults, everything else is null. */
    constructor ()
      ensures Snapshot() == NewTaskRecord
    {
      id := None;
      title := None;
      description := None;
      status := Pending;
      priority := Medium;
      createdBy := None;
      assignedTo := None;
      createdAt := None;
      updatedAt := None;
    }
  }

  /** The body of a create or update call; every property may be null. */
  datatype TaskRequest = TaskRequest(
    title: Option<string>,
    description: Option<string>,
    status: Option<string>,
    priority: Option<string>,
    assignedTo: Option<int>)

  /** What the task API returns. */
  datatype TaskResponse = TaskResponse(
    id: Option<int>,
    title: Option<string>,
    description: Option<string>,
    status: string,
    priority: string,
    createdById: int,
    createdByUsername: string,
    assignedToId: int,
    assignedToUsername: string,
    createdAt: Option<int>,
    updatedAt: Option<int>)
}
