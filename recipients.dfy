/**
 * Who is notified of a task's creation, update and deletion, and with which type. The same
 * three rules are written out in DirectNotificationService and in TaskService; each rule is
 * modelled once, as the sequence of (recipient, type) pairs it sends, in sending order.
 */
module Recipients {
  import opened Tasks
  import opened Factory

  type Send = (User, string)

  /** Creation: TASK_CREATED to the creator, then TASK_ASSIGNED to the assignee if someone else. */
  function TaskCreatedRecipients(creator: User, assignee: User): (r: seq<Send>)
    ensures 1 <= |r| <= 2 && r[0] == (creator, TASK_CREATED)
    ensures (assignee, TASK_ASSIGNED) in r <==> assignee != creator
    ensures forall i :: 0 <= i < |r| ==> r[i] == (creator, TASK_CREATED) || r[i] == (assignee, TASK_ASSIGNED)
  {
    [(creator, TASK_CREATED)] + (if assignee != creator then [(assignee, TASK_ASSIGNED)] else [])
  }

  /** Deletion: TASK_DELETED to the creator, and to the assignee if someone else. */
  function TaskDeletedRecipients(creator: User, assignee: User): (r: seq<Send>)
    ensures 1 <= |r| <= 2 && r[0] == (creator, TASK_DELETED)
    ensures forall i :: 0 <= i < |r| ==> r[i].1 == TASK_DELETED
    ensures (assignee, TASK_DELETED) in r
    ensures |r| == 2 <==> assignee != creator
    ensures forall i, j :: 0 <= i < j < |r| ==> r[i].0 != r[j].0
  {
    [(creator, TASK_DELETED)] + (if assignee != creator then [(assignee, TASK_DELETED)] else [])
  }

  /**
   * Update: TASK_UPDATED to the creator unless the creator made the update; TASK_UPDATED to the
   * assignee from before the update when the status changed, unless that user made the update;
   * TASK_REASSIGNED to the current assignee when the assignee changed, unless that user made
   * the update.
   */
  function TaskUpdatedRecipients(createdBy: User, assignedTo: User, updatedBy: User,
                                 originalAssignee: User, statusChanged: bool, assigneeChanged: bool)
    : (r: seq<Send>)
  {
    (if createdBy != updatedBy then [(createdBy, TASK_UPDATED)] else [])
    + (if statusChanged && originalAssignee != updatedBy then [(originalAssignee, TASK_UPDATED)] else [])
    + (if assigneeChanged && assignedTo != updatedBy then [(assignedTo, TASK_REASSIGNED)] else [])
  }

  /**
   * The update rule, stated per recipient: a user gets TASK_UPDATED iff it is the creator or
   * (after a status change) the original assignee, and is not the updater; the current
   * assignee gets TASK_REASSIGNED iff the assignee changed and it is not the updater. The
   * updater is never notified, at most three events go out, the creator's comes first and the
   * reassignment last.
   */
  lemma TaskUpdatedRules(createdBy: User, assignedTo: User, updatedBy: User,
                         originalAssignee: User, statusChanged: bool, assigneeChanged: bool)
    ensures var r := TaskUpdatedRecipients(createdBy, assignedTo, updatedBy, originalAssignee,
                                           statusChanged, assigneeChanged);
      && |r| <= 3
      && (forall i :: 0 <= i < |r| ==> r[i].0 != updatedBy)
      && (forall u :: (u, TASK_UPDATED) in r <==>
            u != updatedBy && (u == createdBy || (statusChanged && u == originalAssignee)))
      && (forall u :: (u, TASK_REASSIGNED) in r <==> assigneeChanged && u == assignedTo && u != updatedBy)
      && (forall i :: 0 <= i < |r| ==> r[i].1 == TASK_UPDATED || r[i].1 == TASK_REASSIGNED)
      && (createdBy != updatedBy <==> |r| > 0 && r[0] == (createdBy, TASK_UPDATED))
      && (forall i :: 0 <= i < |r| - 1 ==> r[i].1 == TASK_UPDATED)
  {
  }
}
