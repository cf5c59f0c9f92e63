/**
 * SSEConnectionManager: a pod's live SSE connections per user, the per-user replay buffer of
 * recent events, and the writes made to connections. Every method is proved against the
 * operation of the same name on RegistryState.
 */
module Registry {
  import opened Wrappers
  import opened Strings
  import opened Events
  import opened Sums
  import opened RegistrySpec

  class ConnectionRegistry {
    var userConnections: map<string, seq<Conn>>
    var recentNotifications: map<string, seq<NotificationEvent>>
    /** Every event written to a connection, in the order of the writes. */
    var pushed: seq<Push>
    /** The number the next connection gets; every connection made so far is below it. */
    var nextConn: Conn

    ghost predicate Valid()
      reads this
    {
      && WellFormed(userConnections)
      && Below(userConnections, nextConn)
      && (forall u :: u in recentNotifications ==> |recentNotifications[u]| <= MAX_RECENT_NOTIFICATIONS)
    }

    function State(): RegistryState
      reads this
    {
      RegistryState(userConnections, recentNotifications, pushed)
    }

    constructor ()
      ensures Valid() && State() == RegistryState(map[], map[], [])
    {
      userConnections := map[];
      recentNotifications := map[];
      pushed := [];
      nextConn := 0;
    }

    /**
     * `createConnection(user, lastEventId)`: a new connection is appended to the user's list and,
     * given a non-blank lastEventId, the buffered events after it are replayed to it.
     */
    method CreateConnection(username: string, lastEventId: Option<string>, ok: (Conn, NotificationEvent) -> bool)
      returns (conn: Conn)
      requires Valid()
      modifies this
      ensures Valid() && nextConn == old(nextConn) + 1
      ensures forall u :: u in old(userConnections) ==> conn !in old(userConnections)[u]
      ensures State() == Connect(old(State()), username, conn, lastEventId, ok)
    {
      conn := nextConn;
      nextConn := nextConn + 1;
      var connections := if username in userConnections then userConnections[username] else [];
      var updated := connections + [conn];
      assert WellFormed(userConnections[username := updated]) && Below(userConnections[username := updated], nextConn) by {
        assert conn !in connections;
        assert NoDup(updated) by {
          assert forall i :: 0 <= i < |connections| ==> updated[i] == connections[i];
        }
        SetListKeeps(userConnections, username, updated, nextConn);
      }
      userConnections := userConnections[username := updated];
      if lastEventId.Some? && !IsBlank(lastEventId.value) {
        SendNotificationsSince(username, conn, lastEventId.value, ok);
      }
    }

    /** `hasConnection(user)`: whether the user has a live connection on this pod. */
    function HasConnection(username: string): (r: bool)
      reads this
      requires Valid()
      ensures r <==> username in GetConnectedUsers()
    {
      username in userConnections && userConnections[username] != []
    }

    /**
     * `sendToUserLocal(user, e)`: stores the event for replay, writes it to each of the user's
     * connections, then removes the ones that refused it and the user's entry if none is left.
     */
    method SendToUserLocal(username: string, notification: NotificationEvent, ok: (Conn, NotificationEvent) -> bool)
      requires Valid()
      modifies this
      ensures Valid() && nextConn == old(nextConn)
      ensures State() == Deliver(old(State()), username, notification, ok)
    {
      StoreRecentNotification(username, notification);
      if username !in userConnections || userConnections[username] == [] {
        return;
      }
      var connections := userConnections[username];
      var failedEmitters := SendToEach(connections, notification, ok);
      var remaining := RemoveEach(connections, failedEmitters);
      assert remaining == Succeeded(connections, notification, ok) by {
        SucceededFailedPartition(connections, notification, ok);
        WithoutFailedIsSucceeded(connections, Elems(failedEmitters), notification, ok);
      }
      assert NoDup(remaining) && forall c :: c in remaining ==> c < nextConn by {
        WithoutNoDup(connections, Elems(failedEmitters));
      }
      SetListKeeps(userConnections, username, remaining, nextConn);
      userConnections := SetList(userConnections, username, remaining);
    }

    /**
     * The loop of `sendToUserLocal`: the event is written to each connection in turn, counting
     * successes and failures; the result lists, in order, the connections that refused it.
     */
    method SendToEach(connections: seq<Conn>, notification: NotificationEvent, ok: (Conn, NotificationEvent) -> bool)
      returns (failedEmitters: seq<Conn>)
      modifies this`pushed
      ensures failedEmitters == Failed(connections, notification, ok)
      ensures pushed == old(pushed) + PushAll(Succeeded(connections, notification, ok), notification)
    {
      var successCount, failureCount := 0, 0;
      failedEmitters := [];
      for i := 0 to |connections|
        invariant failedEmitters == Failed(connections[..i], notification, ok)
        invariant pushed == old(pushed) + PushAll(Succeeded(connections[..i], notification, ok), notification)
        invariant successCount + failureCount == i && failureCount == |failedEmitters|
      {
        DeliverStep(connections, i, notification, ok);
        var sent := SendToEmitter(connections[i], notification, ok);
        if sent {
          successCount := successCount + 1;
          PushAllSnoc(Succeeded(connections[..i], notification, ok), connections[i], notification);
        } else {
          assert Succeeded(connections[..i + 1], notification, ok) == Succeeded(connections[..i], notification, ok);
          failureCount := failureCount + 1;
          failedEmitters := failedEmitters + [connections[i]];
        }
      }
      assert connections[..|connections|] == connections;
    }

    /**
     * `sendNotificationsSince(user, conn, lastEventId)`: walks the user's buffer; after the first
     * event whose id is lastEventId, writes each following event to the connection and stops at
     * the first refusal.
     */
    method SendNotificationsSince(username: string, conn: Conn, lastEventId: string,
                                  ok: (Conn, NotificationEvent) -> bool)
      modifies this`pushed
      ensures pushed == old(pushed) + ReplayPushes(recentNotifications, username, conn, lastEventId, ok)
    {
      if username !in recentNotifications || recentNotifications[username] == [] {
        assert PushTo(conn, []) == [] && SentWhile(conn, [], ok) == [] && Since([], lastEventId) == [];
        assert pushed == old(pushed) + [];
        return;
      }
      var userNotifications := recentNotifications[username];
      ReplayBuffer(userNotifications, conn, lastEventId, ok);
      ReplayLoopMeaning(conn, userNotifications, lastEventId, ok);
      assert BufferOf(recentNotifications, username) == userNotifications;
    }

    /** The loop of `sendNotificationsSince` over one user's buffer. */
    method ReplayBuffer(userNotifications: seq<NotificationEvent>, conn: Conn, lastEventId: string,
                        ok: (Conn, NotificationEvent) -> bool)
      modifies this`pushed
      ensures pushed == old(pushed) + PushTo(conn, ReplayLoop(conn, userNotifications, lastEventId, false, ok))
    {
      var foundLastEvent := false;
      var sentCount := 0;
      ghost var sent: seq<NotificationEvent> := [];
      var i := 0;
      while i < |userNotifications|
        invariant 0 <= i <= |userNotifications|
        invariant sent + ReplayLoop(conn, userNotifications[i..], lastEventId, foundLastEvent, ok)
               == ReplayLoop(conn, userNotifications, lastEventId, false, ok)
        invariant pushed == old(pushed) + PushTo(conn, sent)
        invariant sentCount == |sent|
      {
        var notification := userNotifications[i];
        if foundLastEvent {
          var written := SendToEmitter(conn, notification, ok);
          if !written {
            assert sent == ReplayLoop(conn, userNotifications, lastEventId, false, ok) by {
              ReplayLoopStep(conn, userNotifications, i, lastEventId, true, ok);
            }
            break;
          }
          sentCount := sentCount + 1;
          assert (sent + [notification]) + ReplayLoop(conn, userNotifications[i + 1..], lastEventId, true, ok)
              == ReplayLoop(conn, userNotifications, lastEventId, false, ok) by {
            ReplayLoopStep(conn, userNotifications, i, lastEventId, true, ok);
          }
          assert PushTo(conn, sent + [notification]) == PushTo(conn, sent) + [Push(conn, notification)] by {
            PushToSnoc(conn, sent, notification);
          }
          sent := sent + [notification];
        } else {
          assert sent + ReplayLoop(conn, userNotifications[i + 1..], lastEventId,
                                   notification.id == Some(lastEventId), ok)
              == ReplayLoop(conn, userNotifications, lastEventId, false, ok) by {
            ReplayLoopStep(conn, userNotifications, i, lastEventId, false, ok);
          }
          if notification.id == Some(lastEventId) {
            foundLastEvent := true;
          }
        }
        i := i + 1;
      }
      if i == |userNotifications| {
        assert userNotifications[i..] == [];
      }
      assert sent == ReplayLoop(conn, userNotifications, lastEventId, false, ok);
    }

    /** `storeRecentNotification(user, e)`: appends to the user's buffer, keeping the last 100. */
    method StoreRecentNotification(username: string, notification: NotificationEvent)
      requires Valid()
      modifies this
      ensures Valid()
      ensures recentNotifications == old(recentNotifications)[username :=
                Store(BufferOf(old(recentNotifications), username), notification)]
      ensures userConnections == old(userConnections) && pushed == old(pushed) && nextConn == old(nextConn)
    {
      var userNotifications := if username in recentNotifications then recentNotifications[username] else [];
      userNotifications := userNotifications + [notification];
      if |userNotifications| > MAX_RECENT_NOTIFICATIONS {
        userNotifications := userNotifications[|userNotifications| - MAX_RECENT_NOTIFICATIONS..];
      }
      recentNotifications := recentNotifications[username := userNotifications];
    }

    /**
     * `sendToEmitter(conn, e)`: an event whose JSON is "{}" is refused without a write; otherwise
     * the event is written, and the result says whether the write went through.
     */
    method SendToEmitter(conn: Conn, notification: NotificationEvent, ok: (Conn, NotificationEvent) -> bool)
      returns (sent: bool)
      modifies this`pushed
      ensures sent == Sends(conn, notification, ok)
      ensures pushed == old(pushed) + (if sent then [Push(conn, notification)] else [])
    {
      var jsonData := Encode(notification);
      EncodeEmptyIff(notification);
      if jsonData == [] {
        return false;
      }
      if !ok(conn, notification) {
        return false;
      }
      pushed := pushed + [Push(conn, notification)];
      return true;
    }

    /**
     * `removeConnection(user, conn)`, run when a connection completes, times out or fails: the
     * connection leaves the user's list and an emptied entry is dropped.
     */
    method RemoveConnection(username: string, conn: Conn)
      requires Valid()
      modifies this
      ensures Valid() && nextConn == old(nextConn)
      ensures State() == Disconnect(old(State()), username, conn)
    {
      if username in userConnections {
        var connections := RemoveFirst(userConnections[username], conn);
        RemoveFirstNoDup(userConnections[username], conn);
        WithoutNoDup(userConnections[username], {conn});
        if connections == [] {
          userConnections := userConnections - {username};
        } else {
          userConnections := userConnections[username := connections];
        }
      }
    }

    /** `getActiveConnectionCount()`: the number of live connections over all users. */
    method GetActiveConnectionCount() returns (count: nat)
      ensures count == TotalSize(userConnections)
    {
      count := 0;
      var users := userConnections.Keys;
      assert Restrict(userConnections, users) == userConnections;
      while users != {}
        invariant users <= userConnections.Keys
        invariant count + TotalSize(Restrict(userConnections, users)) == TotalSize(userConnections)
        decreases |users|
      {
        var u :| u in users;
        var rest := Restrict(userConnections, users);
        TotalSizeRemove(rest, u);
        assert rest - {u} == Restrict(userConnections, users - {u});
        count := count + |userConnections[u]|;
        users := users - {u};
      }
      assert Restrict(userConnections, {}) == map[];
    }

    /** `getRecentNotificationCount(user)`: the size of the user's buffer, 0 for an unknown user. */
    function GetRecentNotificationCount(username: string): (r: nat)
      reads this
      requires Valid()
      ensures r <= MAX_RECENT_NOTIFICATIONS
      ensures username !in recentNotifications ==> r == 0
      ensures r == |BufferOf(recentNotifications, username)|
    {
      if username in recentNotifications then |recentNotifications[username]| else 0
    }

    /** `getConnectedUsers()`: the users with an entry, which are exactly those with a live connection. */
    function GetConnectedUsers(): (r: set<string>)
      reads this
      requires Valid()
      ensures forall u :: u in r <==> u in userConnections && userConnections[u] != []
    {
      userConnections.Keys
    }

    /** `removeStaleConnections()`: drops every entry whose list is empty. */
    method RemoveStaleConnections()
      requires Valid()
      modifies this
      ensures Valid()
      ensures State() == old(State()).(connections := Prune(old(userConnections)))
      ensures nextConn == old(nextConn)
    {
      userConnections := map u | u in userConnections && userConnections[u] != [] :: userConnections[u];
    }
  }

  /**
   * `failedEmitters.forEach(connections::remove)`: each listed connection's first occurrence is
   * removed in turn, which on a list without duplicates removes exactly the listed ones.
   */
  method RemoveEach(connections: seq<Conn>, failed: seq<Conn>) returns (remaining: seq<Conn>)
    requires NoDup(connections)
    ensures remaining == Without(connections, Elems(failed))
  {
    remaining := connections;
    assert Elems(failed[..0]) == {};
    WithoutUnchanged(connections, {});
    for j := 0 to |failed|
      invariant remaining == Without(connections, Elems(failed[..j]))
    {
      var gone := Elems(failed[..j]);
      assert RemoveFirst(remaining, failed[j]) == Without(connections, gone + {failed[j]}) by {
        WithoutNoDup(connections, gone);
        RemoveFirstNoDup(remaining, failed[j]);
        WithoutTwice(connections, gone, {failed[j]});
      }
      assert Elems(failed[..j + 1]) == gone + {failed[j]} by {
        assert failed[..j + 1] == failed[..j] + [failed[j]];
      }
      remaining := RemoveFirst(remaining, failed[j]);
    }
    assert failed[..|failed|] == failed;
  }
}
