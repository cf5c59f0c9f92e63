/**
 * Who may do what to a task: its creator may do anything, its assignee may update and view it,
 * and nobody else may do anything.
 */
module TaskPermissions {
  import opened Wrappers
  import opened Tasks

  /** The operations a permission check guards. */
  datatype Action = Update | Delete | Reassign

  function ActionName(a: Action): string {
    match a
    case Update => "update"
    case Delete => "delete"
    case Reassign => "reassign"
  }

  /** TaskPermissionException: who was refused, on which task, and what. */
  datatype Denial = Denial(username: string, taskId: Option<int>, action: string)

  predicate IsCreator(t: TaskRecord, user: User)
    requires t.createdBy.Some?
  {
    t.createdBy.value == user
  }

  predicate IsAssignee(t: TaskRecord, user: User)
    requires t.assignedTo.Some?
  {
    t.assignedTo.value == user
  }

  /**
   * `canUpdate`: creator or assignee. The assignee is consulted only when the user is not the
   * creator, so only then must it be set.
   */
  predicate CanUpdate(t: TaskRecord, user: User)
    requires t.createdBy.Some? && (t.createdBy.value != user ==> t.assignedTo.Some?)
  {
    IsCreator(t, user) || IsAssignee(t, user)
  }

  predicate CanDelete(t: TaskRecord, user: User)
    requires t.createdBy.Some?
  {
    IsCreator(t, user)
  }

  predicate CanReassign(t: TaskRecord, user: User)
    requires t.createdBy.Some?
  {
    IsCreator(t, user)
  }

  predicate CanView(t: TaskRecord, user: User)
    requires t.createdBy.Some? && (t.createdBy.value != user ==> t.assignedTo.Some?)
  {
    IsCreator(t, user) || IsAssignee(t, user)
  }

  /** The rule behind each check, in terms of the task's two users. */
  lemma PermissionRules(t: TaskRecord, user: User)
    requires Persisted(t)
    ensures CanUpdate(t, user) <==> user == t.createdBy.value || user == t.assignedTo.value
    ensures CanDelete(t, user) <==> user == t.createdBy.value
    ensures CanReassign(t, user) <==> CanDelete(t, user)
    ensures CanView(t, user) <==> CanUpdate(t, user)
  {
  }

  /** Whoever may delete a task may also update it, and a stranger may do nothing. */
  lemma DeleteImpliesUpdate(t: TaskRecord, user: User)
    requires Persisted(t)
    ensures CanDelete(t, user) ==> CanUpdate(t, user)
    ensures user != t.createdBy.value && user != t.assignedTo.value ==>
      !CanUpdate(t, user) && !CanDelete(t, user) && !CanReassign(t, user) && !CanView(t, user)
  {
  }

  /** Holds when the user may perform the action. */
  predicate Allowed(t: TaskRecord, user: User, action: Action)
    requires Persisted(t)
  {
    match action
    case Update => CanUpdate(t, user)
    case Delete => CanDelete(t, user)
    case Reassign => CanReassign(t, user)
  }

  /**
   * `validateUpdatePermission`, `validateDeletePermission`, `validateReassignPermission`:
   * nothing when the check holds, otherwise the TaskPermissionException naming the user, the
   * task and the action.
   */
  function Validate(t: TaskRecord, user: User, action: Action): (r: Option<Denial>)
    requires Persisted(t)
    ensures r.Some? <==> !Allowed(t, user, action)
    ensures r.Some? ==>
              r.value.username == user.username && r.value.taskId == t.id && r.value.action == ActionName(action)
  {
    if Allowed(t, user, action) then None else Some(Denial(user.username, t.id, ActionName(action)))
  }

  /** A stranger is refused every action; the assignee is refused exactly deletion and reassignment. */
  lemma ValidateOutcomes(t: TaskRecord, user: User)
    requires Persisted(t)
    ensures user == t.createdBy.value ==>
      Validate(t, user, Update).None? && Validate(t, user, Delete).None? && Validate(t, user, Reassign).None?
    ensures user != t.createdBy.value && user == t.assignedTo.value ==>
      Validate(t, user, Update).None? && Validate(t, user, Delete).Some? && Validate(t, user, Reassign).Some?
    ensures user != t.createdBy.value && user != t.assignedTo.value ==>
      Validate(t, user, Update).Some? && Validate(t, user, Delete).Some? && Validate(t, user, Reassign).Some?
  {
  }
}
