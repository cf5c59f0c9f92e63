/**
 * NotificationService: the single-pod notification service. It keeps the same two maps as
 * SSEConnectionManager and updates them the same way, so its state is a ConnectionRegistry;
 * on top of that it resolves the connecting user from a token and refuses events that do not
 * name a user.
 */
module Service {
  import opened Wrappers
  import opened Strings
  import opened Events
  import opened Sums
  import opened RegistrySpec
  import opened Registry

  /** The message of the exception createConnection throws for any failure. */
  const CONNECTION_FAILED := "Failed to create SSE connection"

  class NotificationService {
    /** The per-user connection lists and replay buffers. */
    const registry: ConnectionRegistry

    ghost predicate Valid()
      reads this, registry
    {
      registry.Valid()
    }

    constructor ()
      ensures Valid() && fresh(registry)
      ensures registry.State() == RegistryState(map[], map[], [])
    {
      registry := new ConnectionRegistry();
    }

    /**
     * `createConnection(token, lastEventId)`: a token that resolves to no user fails with the
     * wrapped exception and registers nothing; otherwise the connection is added at the end of
     * the user's list and the events after lastEventId are replayed to it.
     * `resolve` is the token provider.
     */
    method CreateConnection(token: string, lastEventId: Option<string>, resolve: string -> Option<string>,
                            ok: (Conn, NotificationEvent) -> bool)
      returns (r: Result<Conn>)
      requires Valid()
      modifies registry
      ensures Valid()
      ensures resolve(token).None? ==> r == Failure(CONNECTION_FAILED) && registry.State() == old(registry.State())
      ensures resolve(token).Some? ==>
                && r.Success?
                && (forall u :: u in old(registry.userConnections) ==> r.value !in old(registry.userConnections)[u])
                && registry.State() == Connect(old(registry.State()), resolve(token).value, r.value, lastEventId, ok)
    {
      var username := resolve(token);
      if username.None? {
        return Failure(CONNECTION_FAILED);
      }
      var conn := registry.CreateConnection(username.value, lastEventId, ok);
      return Success(conn);
    }

    /**
     * `sendNotification(e)`: a null event, or one whose username is null or blank, is dropped
     * and nothing changes; any other is delivered to its user.
     */
    method SendNotification(notification: Option<NotificationEvent>, ok: (Conn, NotificationEvent) -> bool)
      requires Valid()
      modifies registry
      ensures Valid()
      ensures notification.None? || !Addressed(notification.value) ==> registry.State() == old(registry.State())
      ensures notification.Some? && Addressed(notification.value) ==>
                registry.State() == Deliver(old(registry.State()), notification.value.username.value,
                                            notification.value, ok)
    {
      if notification.None? {
        return;
      }
      var username := notification.value.username;
      if username.None? || IsBlank(username.value) {
        return;
      }
      registry.SendToUserLocal(username.value, notification.value, ok);
    }

    /** `removeConnection(user, conn)`, run when a connection completes, times out or fails. */
    method RemoveConnection(username: string, conn: Conn)
      requires Valid()
      modifies registry
      ensures Valid()
      ensures registry.State() == Disconnect(old(registry.State()), username, conn)
    {
      registry.RemoveConnection(username, conn);
    }

    /** `getActiveConnectionCount()`: the connections of every user, added up. */
    method GetActiveConnectionCount() returns (count: nat)
      ensures count == TotalSize(registry.userConnections)
    {
      count := registry.GetActiveConnectionCount();
    }

    /** `getRecentNotificationCount(user)`: the size of the user's replay buffer. */
    function GetRecentNotificationCount(username: string): (r: nat)
      reads this, registry
      requires Valid()
      ensures r <= MAX_RECENT_NOTIFICATIONS
      ensures username !in registry.recentNotifications ==> r == 0
      ensures r == |BufferOf(registry.recentNotifications, username)|
    {
      registry.GetRecentNotificationCount(username)
    }
  }
}
