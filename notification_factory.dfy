/**
 * NotificationFactory: the five notification types, the message template each maps to, and the
 * events built for a task and a recipient. The generated event id and the clock reading are
 * parameters.
 */
module Factory {
  import opened Wrappers
  import opened Strings
  import opened Tasks
  import opened Events

  const TASK_CREATED := "TASK_CREATED"
  const TASK_ASSIGNED := "TASK_ASSIGNED"
  const TASK_UPDATED := "TASK_UPDATED"
  const TASK_REASSIGNED := "TASK_REASSIGNED"
  const TASK_DELETED := "TASK_DELETED"

  const NotificationTypes: set<string> :=
    {TASK_CREATED, TASK_ASSIGNED, TASK_UPDATED, TASK_REASSIGNED, TASK_DELETED}

  datatype MessageTemplate =
    | TaskCreatedTemplate
    | TaskAssignedTemplate
    | TaskUpdatedTemplate
    | TaskStatusUpdatedTemplate
    | TaskReassignedTemplate
    | TaskDeletedTemplate

  /** The text of each template before its single `%s`. */
  function Prefix(t: MessageTemplate): string {
    match t
    case TaskCreatedTemplate => "Task created: "
    case TaskAssignedTemplate => "New task assigned: "
    case TaskUpdatedTemplate => "Task updated: "
    case TaskStatusUpdatedTemplate => "Task status updated: "
    case TaskReassignedTemplate => "Task reassigned to you: "
    case TaskDeletedTemplate => "Task was deleted: "
  }

  /** What `%s` prints for a possibly null string: the string, or "null". */
  function Text(s: Option<string>): string {
    if s.Some? then s.value else "null"
  }

  /** `MessageTemplate.format(title)`: the template with its `%s` replaced by the title. */
  function Format(t: MessageTemplate, title: Option<string>): (m: string)
    ensures StartsWith(m, Prefix(t)) && m[|Prefix(t)|..] == Text(title)
  {
    Prefix(t) + Text(title)
  }

  /**
   * `getMessageTemplate(type)`: each type constant selects the template of the same name, and
   * any other string the TASK_UPDATED template.
   */
  function GetMessageTemplate(eventType: string): (t: MessageTemplate)
    ensures eventType == TASK_CREATED ==> t == TaskCreatedTemplate
    ensures eventType == TASK_ASSIGNED ==> t == TaskAssignedTemplate
    ensures eventType == TASK_UPDATED ==> t == TaskUpdatedTemplate
    ensures eventType == TASK_REASSIGNED ==> t == TaskReassignedTemplate
    ensures eventType == TASK_DELETED ==> t == TaskDeletedTemplate
    ensures eventType !in NotificationTypes ==> t == TaskUpdatedTemplate
    ensures t != TaskStatusUpdatedTemplate
  {
    if eventType == TASK_CREATED then TaskCreatedTemplate
    else if eventType == TASK_ASSIGNED then TaskAssignedTemplate
    else if eventType == TASK_UPDATED then TaskUpdatedTemplate
    else if eventType == TASK_REASSIGNED then TaskReassignedTemplate
    else if eventType == TASK_DELETED then TaskDeletedTemplate
    else TaskUpdatedTemplate
  }

  /** A message names its template: no two templates render to the same message. */
  lemma {:induction false} FormatDeterminesTemplate(t1: MessageTemplate, t2: MessageTemplate,
                                                    a: Option<string>, b: Option<string>)
    requires Format(t1, a) == Format(t2, b)
    ensures t1 == t2 && Text(a) == Text(b)
  {
    var m := Format(t1, a);
    if t1 != t2 {
      PrefixesDiffer(t1, t2);
    }
    assert m[|Prefix(t1)|..] == Text(a);
  }

  /** Any two distinct templates differ inside their common length. */
  lemma PrefixesDiffer(t1: MessageTemplate, t2: MessageTemplate)
    requires t1 != t2
    ensures exists i :: 0 <= i < |Prefix(t1)| && i < |Prefix(t2)| && Prefix(t1)[i] != Prefix(t2)[i]
  {
    var p1, p2 := Prefix(t1), Prefix(t2);
    if p1[0] == p2[0] {
      assert p1[5] != p2[5];
    }
  }

  /** The recipient's and the task users' usernames, null where the user is null. */
  function UsernameOf(u: Option<User>): Option<string> {
    if u.Some? then Some(u.value.username) else None
  }

  /** The event both task-based overloads build once the message is known. */
  function TaskEvent(eventType: string, message: string, task: TaskRecord, recipient: User,
                     id: string, now: LocalDateTime): NotificationEvent
    requires task.id.Some?
  {
    CreateFullTaskNotification(id, Some(eventType), Some(message), Some(recipient.username),
                               Some(LongToString(task.id.value)), task.title,
                               UsernameOf(task.createdBy), UsernameOf(task.assignedTo), now)
  }

  /**
   * `createTaskNotification(type, task, recipient)`: the type, the message of the type's
   * template, the recipient's username, the task id in decimal, the title, and the creator's
   * and assignee's usernames (null, without throwing, where the task has none).
   */
  function CreateTaskNotification(eventType: string, task: TaskRecord, recipient: User,
                                  id: string, now: LocalDateTime): (e: NotificationEvent)
    requires task.id.Some?
    ensures e.id == Some(id) && e.eventType == Some(eventType)
    ensures e.message == Some(Format(GetMessageTemplate(eventType), task.title))
    ensures e.username == Some(recipient.username)
    ensures e.taskId.Some? && ParseLong(e.taskId.value) == Some(task.id.value)
    ensures e.taskTitle == task.title
    ensures e.creatorUsername.Some? <==> task.createdBy.Some?
    ensures task.createdBy.Some? ==> e.creatorUsername.value == task.createdBy.value.username
    ensures e.assignedUsername.Some? <==> task.assignedTo.Some?
    ensures task.assignedTo.Some? ==> e.assignedUsername.value == task.assignedTo.value.username
    ensures WholeSeconds(e)
  {
    LongRoundTrip(task.id.value);
    TaskEvent(eventType, Format(GetMessageTemplate(eventType), task.title), task, recipient, id, now)
  }

  /** `createTaskNotification(type, task, recipient, template)`: as above, with the given template. */
  function CreateTaskNotificationWith(eventType: string, task: TaskRecord, recipient: User,
                                      template: MessageTemplate, id: string, now: LocalDateTime)
    : (e: NotificationEvent)
    requires task.id.Some?
    ensures e.message == Some(Format(template, task.title))
    ensures e == CreateTaskNotification(eventType, task, recipient, id, now).(message := e.message)
  {
    TaskEvent(eventType, Format(template, task.title), task, recipient, id, now)
  }

  /**
   * `createTaskNotification(type, taskId, taskTitle, recipient)`: for a task that is gone; the
   * creator and assignee are left null.
   */
  function CreateTaskNotificationById(eventType: string, taskId: int, taskTitle: Option<string>,
                                      recipient: User, id: string, now: LocalDateTime)
    : (e: NotificationEvent)
    ensures e.eventType == Some(eventType) && e.username == Some(recipient.username)
    ensures e.message == Some(Format(GetMessageTemplate(eventType), taskTitle))
    ensures e.taskId == Some(LongToString(taskId)) && e.taskTitle == taskTitle
    ensures e.creatorUsername.None? && e.assignedUsername.None?
    ensures WholeSeconds(e)
  {
    Events.CreateTaskNotification(id, Some(eventType), Some(Format(GetMessageTemplate(eventType), taskTitle)),
                                  Some(recipient.username), Some(LongToString(taskId)), taskTitle, now)
  }

  // ----- the convenience methods -----

  function CreateTaskCreatedNotification(task: TaskRecord, recipient: User, id: string, now: LocalDateTime)
    : (e: NotificationEvent)
    requires task.id.Some?
    ensures e.eventType == Some(TASK_CREATED) && e.message == Some("Task created: " + Text(task.title))
    ensures e.username == Some(recipient.username)
  {
    CreateTaskNotification(TASK_CREATED, task, recipient, id, now)
  }

  function CreateTaskAssignedNotification(task: TaskRecord, assignee: User, id: string, now: LocalDateTime)
    : (e: NotificationEvent)
    requires task.id.Some?
    ensures e.eventType == Some(TASK_ASSIGNED) && e.message == Some("New task assigned: " + Text(task.title))
    ensures e.username == Some(assignee.username)
  {
    CreateTaskNotification(TASK_ASSIGNED, task, assignee, id, now)
  }

  function CreateTaskUpdatedNotification(task: TaskRecord, recipient: User, id: string, now: LocalDateTime)
    : (e: NotificationEvent)
    requires task.id.Some?
    ensures e.eventType == Some(TASK_UPDATED) && e.message == Some("Task updated: " + Text(task.title))
    ensures e.username == Some(recipient.username)
  {
    CreateTaskNotification(TASK_UPDATED, task, recipient, id, now)
  }

  /** The one convenience method whose template is not the type's own: type TASK_UPDATED, status text. */
  function CreateTaskStatusUpdatedNotification(task: TaskRecord, recipient: User, id: string, now: LocalDateTime)
    : (e: NotificationEvent)
    requires task.id.Some?
    ensures e.eventType == Some(TASK_UPDATED) && e.message == Some("Task status updated: " + Text(task.title))
    ensures e.username == Some(recipient.username)
    ensures e != CreateTaskUpdatedNotification(task, recipient, id, now)
  {
    StatusTextDiffers(Text(task.title));
    CreateTaskNotificationWith(TASK_UPDATED, task, recipient, TaskStatusUpdatedTemplate, id, now)
  }

  lemma StatusTextDiffers(title: string)
    ensures "Task status updated: " + title != "Task updated: " + title
  {
    assert ("Task status updated: " + title)[5] == 's';
    assert ("Task updated: " + title)[5] == 'u';
  }

  function CreateTaskReassignedNotification(task: TaskRecord, newAssignee: User, id: string, now: LocalDateTime)
    : (e: NotificationEvent)
    requires task.id.Some?
    ensures e.eventType == Some(TASK_REASSIGNED) && e.message == Some("Task reassigned to you: " + Text(task.title))
    ensures e.username == Some(newAssignee.username)
  {
    CreateTaskNotification(TASK_REASSIGNED, task, newAssignee, id, now)
  }

  function CreateTaskDeletedNotification(task: TaskRecord, recipient: User, id: string, now: LocalDateTime)
    : (e: NotificationEvent)
    requires task.id.Some?
    ensures e.eventType == Some(TASK_DELETED) && e.message == Some("Task was deleted: " + Text(task.title))
    ensures e.username == Some(recipient.username)
  {
    CreateTaskNotification(TASK_DELETED, task, recipient, id, now)
  }

  function CreateTaskDeletedNotificationById(taskId: int, taskTitle: Option<string>, recipient: User,
                                             id: string, now: LocalDateTime)
    : (e: NotificationEvent)
    ensures e.eventType == Some(TASK_DELETED) && e.message == Some("Task was deleted: " + Text(taskTitle))
    ensures e.username == Some(recipient.username)
    ensures e.creatorUsername.None? && e.assignedUsername.None?
  {
    CreateTaskNotificationById(TASK_DELETED, taskId, taskTitle, recipient, id, now)
  }

  /** Every event the factory builds survives the trip through the wire unchanged. */
  lemma FactoryEventsRoundTrip(eventType: string, task: TaskRecord, recipient: User,
                               id: string, now: LocalDateTime)
    requires task.id.Some?
    ensures var e := CreateTaskNotification(eventType, task, recipient, id, now);
      Decode(Encode(e)) == Some(e)
  {
    RoundTripExact(CreateTaskNotification(eventType, task, recipient, id, now));
  }
}
