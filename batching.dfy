/**
 * NotificationBatchingService: events wait in a FIFO queue per user and are handed to the
 * pod's sendToUserLocal in enqueue order, either as soon as the user's queue reaches five
 * events or when every queue is flushed (on a timer in the service, an explicit call here).
 */
module Batching {
  import opened Wrappers
  import opened Events
  import opened Sums
  import opened RegistrySpec
  import opened Registry

  const MAX_BATCH_SIZE: nat := 5

  type Queues = map<string, seq<NotificationEvent>>

  /** The user's queue, empty for a user without one. */
  function PendingOf(pending: Queues, user: string): seq<NotificationEvent> {
    if user in pending then pending[user] else []
  }

  /** Every queue in the map is non-empty and below the batch size. */
  predicate QueuesValid(pending: Queues) {
    forall u :: u in pending ==> 0 < |pending[u]| < MAX_BATCH_SIZE
  }

  /** No user appears twice. */
  predicate Distinct(users: seq<string>) {
    forall i, j :: 0 <= i < j < |users| ==> users[i] != users[j]
  }

  // ----- the queue operations as values -----

  /**
   * `queueNotification(user, e)` on the queues: the event joins the end of the user's queue,
   * and a queue that reaches the batch size leaves the map as the batch to send. Returns the
   * new queues and the batch, which is empty when nothing is flushed.
   */
  function Enqueue(pending: Queues, user: string, e: NotificationEvent): (Queues, seq<NotificationEvent>) {
    var queue := PendingOf(pending, user) + [e];
    if |queue| >= MAX_BATCH_SIZE then (pending - {user}, queue)
    else (pending[user := queue], [])
  }

  /**
   * `flushUserNotifications(user)` on the queues: a user with a non-empty queue loses it, and
   * the queue is the batch to send; otherwise nothing changes and nothing is sent.
   */
  function TakeQueue(pending: Queues, user: string): (Queues, seq<NotificationEvent>) {
    if user in pending && pending[user] != [] then (pending - {user}, pending[user])
    else (pending, [])
  }

  /**
   * Queueing keeps every queue non-empty and below five, loses and reorders nothing (the old
   * queue plus the event is the batch followed by what stays queued), flushes exactly when the
   * queue had four events, sends batches of exactly five, leaves other users alone, and moves
   * one event into the pending total or the whole queue out of it.
   */
  lemma EnqueueRules(pending: Queues, user: string, e: NotificationEvent)
    requires QueuesValid(pending)
    ensures var r := Enqueue(pending, user, e);
      && QueuesValid(r.0)
      && PendingOf(pending, user) + [e] == r.1 + PendingOf(r.0, user)
      && (r.1 != [] <==> |PendingOf(pending, user)| == MAX_BATCH_SIZE - 1)
      && (r.1 != [] ==> |r.1| == MAX_BATCH_SIZE && user !in r.0)
      && (forall v :: v != user ==> PendingOf(r.0, v) == PendingOf(pending, v))
      && TotalSize(r.0) + |r.1| == TotalSize(pending) + 1
  {
    var queue := PendingOf(pending, user) + [e];
    TotalSizeUpdate(pending, user, queue);
    if |queue| >= MAX_BATCH_SIZE {
      var full := pending[user := queue];
      TotalSizeRemove(full, user);
      assert full - {user} == pending - {user};
      assert queue + [] == queue;
    }
  }

  /** Taking a queue sends all of it, removes the user's entry and leaves everyone else's. */
  lemma TakeQueueRules(pending: Queues, user: string)
    ensures var r := TakeQueue(pending, user);
      && (user !in r.0 || r.0[user] == [])
      && r.1 == PendingOf(pending, user)
      && (forall v :: v != user ==> PendingOf(r.0, v) == PendingOf(pending, v))
      && TotalSize(r.0) + |r.1| == TotalSize(pending)
  {
    if user in pending {
      TotalSizeRemove(pending, user);
      if pending[user] == [] {
        assert pending == (pending - {user})[user := []];
        TotalSizeUpdate(pending - {user}, user, []);
      }
    }
  }

  // ----- what the pod sees -----

  /** Each event of a batch handed to sendToUserLocal, in order. */
  function DeliverAll(st: RegistryState, user: string, events: seq<NotificationEvent>,
                     ok: (Conn, NotificationEvent) -> bool): RegistryState
  {
    if events == [] then st
    else Deliver(DeliverAll(st, user, events[..|events| - 1], ok), user, events[|events| - 1], ok)
  }

  /**
   * After a batch the user's replay buffer holds the last 100 of the old buffer followed by the
   * batch, and every other user's buffer and connections are as they were.
   */
  lemma {:induction false} DeliverAllBuffers(st: RegistryState, user: string, events: seq<NotificationEvent>,
                                             ok: (Conn, NotificationEvent) -> bool)
    ensures var st' := DeliverAll(st, user, events, ok);
      && BufferOf(st'.recent, user) == StoreAll(BufferOf(st.recent, user), events)
      && (forall v :: v != user ==> BufferOf(st'.recent, v) == BufferOf(st.recent, v))
      && (forall v :: v != user ==> ConnsOf(st', v) == ConnsOf(st, v))
  {
    if events != [] {
      var init := events[..|events| - 1];
      DeliverAllBuffers(st, user, init, ok);
      DeliverStores(DeliverAll(st, user, init, ok), user, events[|events| - 1], ok);
      DeliverKeepsOthers(DeliverAll(st, user, init, ok), user, events[|events| - 1], ok);
    }
  }

  /** Every user's queue handed over in turn, in the order the users are taken. */
  function DeliverUsers(st: RegistryState, users: seq<string>, pending: Queues,
                        ok: (Conn, NotificationEvent) -> bool): RegistryState
  {
    if users == [] then st
    else
      var u := users[|users| - 1];
      DeliverAll(DeliverUsers(st, users[..|users| - 1], pending, ok), u, PendingOf(pending, u), ok)
  }

  /**
   * Whatever order the users are flushed in, each flushed user's buffer ends as the old buffer
   * with that user's queue stored after it, and every other buffer is unchanged.
   */
  lemma {:induction false} DeliverUsersBuffers(st: RegistryState, users: seq<string>, pending: Queues,
                                               ok: (Conn, NotificationEvent) -> bool, v: string)
    requires Distinct(users)
    ensures BufferOf(DeliverUsers(st, users, pending, ok).recent, v)
         == StoreAll(BufferOf(st.recent, v), if v in users then PendingOf(pending, v) else [])
  {
    if users != [] {
      var init, u := users[..|users| - 1], users[|users| - 1];
      assert Distinct(init);
      DeliverUsersBuffers(st, init, pending, ok, v);
      DeliverAllBuffers(DeliverUsers(st, init, pending, ok), u, PendingOf(pending, u), ok);
      if v == u {
        assert v !in init by {
          forall i | 0 <= i < |init| ensures init[i] != v {
            assert init[i] == users[i];
          }
        }
      } else {
        assert v in users <==> v in init by {
          assert users == init + [u];
        }
      }
    }
  }

  class BatchingService {
    /** The pod's connection manager, which the batches are handed to. */
    const manager: ConnectionRegistry
    var pendingNotifications: Queues

    ghost predicate Valid()
      reads this, manager
    {
      manager.Valid() && QueuesValid(pendingNotifications)
    }

    constructor (manager: ConnectionRegistry)
      requires manager.Valid()
      ensures Valid() && this.manager == manager
      ensures pendingNotifications == map[]
    {
      this.manager := manager;
      pendingNotifications := map[];
    }

    /**
     * `queueNotification(user, e)`: a null user or event changes nothing; otherwise the event is
     * queued and, when the queue reaches five, the whole queue is handed over at once.
     */
    method QueueNotification(username: Option<string>, notification: Option<NotificationEvent>,
                             ok: (Conn, NotificationEvent) -> bool)
      requires Valid()
      modifies this, manager
      ensures Valid()
      ensures username.None? || notification.None? ==>
                && pendingNotifications == old(pendingNotifications)
                && manager.State() == old(manager.State())
      ensures username.Some? && notification.Some? ==>
                var r := Enqueue(old(pendingNotifications), username.value, notification.value);
                && pendingNotifications == r.0
                && manager.State() == DeliverAll(old(manager.State()), username.value, r.1, ok)
    {
      if username.None? || notification.None? {
        return;
      }
      var user := username.value;
      var userQueue := PendingOf(pendingNotifications, user) + [notification.value];
      pendingNotifications := pendingNotifications[user := userQueue];
      if |userQueue| >= MAX_BATCH_SIZE {
        FlushUserNotifications(user, ok);
        assert pendingNotifications == old(pendingNotifications) - {user};
      }
    }

    /**
     * `flushUserNotifications(user)`: the user's queue is drained in order, the user's entry is
     * removed, and the drained events are handed to sendToUserLocal one by one in that order.
     * A user with no queue or an empty one is left alone.
     */
    method FlushUserNotifications(username: string, ok: (Conn, NotificationEvent) -> bool)
      requires manager.Valid()
      modifies this, manager
      ensures manager.Valid()
      ensures var r := TakeQueue(old(pendingNotifications), username);
        && pendingNotifications == r.0
        && manager.State() == DeliverAll(old(manager.State()), username, r.1, ok)
    {
      if username !in pendingNotifications || pendingNotifications[username] == [] {
        return;
      }
      ghost var queue := pendingNotifications[username];
      var notificationsToSend: seq<NotificationEvent> := [];
      while pendingNotifications[username] != []
        modifies this`pendingNotifications
        invariant username in pendingNotifications
        invariant notificationsToSend + pendingNotifications[username] == queue
        invariant pendingNotifications == old(pendingNotifications)[username := pendingNotifications[username]]
        decreases |pendingNotifications[username]|
      {
        var userQueue := pendingNotifications[username];
        notificationsToSend := notificationsToSend + [userQueue[0]];
        pendingNotifications := pendingNotifications[username := userQueue[1..]];
      }
      assert notificationsToSend == queue;
      if pendingNotifications[username] == [] {
        pendingNotifications := pendingNotifications - {username};
      }
      assert pendingNotifications == old(pendingNotifications) - {username};
      if notificationsToSend != [] {
        SendBatch(username, notificationsToSend, ok);
      }
    }

    /** The drained batch handed to sendToUserLocal, event by event, in order. */
    method SendBatch(username: string, batch: seq<NotificationEvent>, ok: (Conn, NotificationEvent) -> bool)
      requires manager.Valid()
      modifies manager
      ensures manager.Valid()
      ensures manager.State() == DeliverAll(old(manager.State()), username, batch, ok)
    {
      for i := 0 to |batch|
        invariant manager.Valid()
        invariant manager.State() == DeliverAll(old(manager.State()), username, batch[..i], ok)
      {
        manager.SendToUserLocal(username, batch[i], ok);
        assert batch[..i + 1][..i] == batch[..i];
      }
      assert batch[..|batch|] == batch;
    }

    /**
     * `flushAllPendingNotifications()`: every user's queue is flushed, one user after another
     * in the order returned, so no events stay pending and each user has been handed exactly
     * the events that were queued for it.
     */
    method FlushAllPendingNotifications(ok: (Conn, NotificationEvent) -> bool) returns (ghost order: seq<string>)
      requires Valid()
      modifies this, manager
      ensures Valid() && pendingNotifications == map[]
      ensures Distinct(order) && forall u :: u in order <==> u in old(pendingNotifications)
      ensures manager.State() == DeliverUsers(old(manager.State()), order, old(pendingNotifications), ok)
    {
      order := [];
      if pendingNotifications == map[] {
        return;
      }
      ghost var queues, st := pendingNotifications, manager.State();
      var usersToFlush := pendingNotifications.Keys;
      assert pendingNotifications == Restrict(queues, usersToFlush);
      while usersToFlush != {}
        invariant Valid() && usersToFlush <= queues.Keys
        invariant FlushedSoFar(queues, st, usersToFlush, order, ok)
        decreases |usersToFlush|
      {
        var username :| username in usersToFlush;
        FlushNext(username, usersToFlush, queues, st, order, ok);
        usersToFlush := usersToFlush - {username};
        order := order + [username];
      }
      assert Restrict(queues, {}) == map[];
    }

    /**
     * Where flushing every user stands once the users outside `usersToFlush` have been flushed
     * in the order `order`, starting from the queues and pod state given.
     */
    ghost predicate FlushedSoFar(queues: Queues, st: RegistryState, usersToFlush: set<string>,
                                 order: seq<string>, ok: (Conn, NotificationEvent) -> bool)
      reads this, manager
    {
      && pendingNotifications == Restrict(queues, usersToFlush)
      && Distinct(order)
      && (forall u :: u in order <==> u in queues && u !in usersToFlush)
      && manager.State() == DeliverUsers(st, order, queues, ok)
    }

    /** One more user flushed during `flushAllPendingNotifications`. */
    method FlushNext(username: string, usersToFlush: set<string>, ghost queues: Queues,
                     ghost st: RegistryState, ghost order: seq<string>, ok: (Conn, NotificationEvent) -> bool)
      requires Valid() && username in usersToFlush && usersToFlush <= queues.Keys
      requires FlushedSoFar(queues, st, usersToFlush, order, ok)
      modifies this, manager
      ensures Valid()
      ensures FlushedSoFar(queues, st, usersToFlush - {username}, order + [username], ok)
    {
      ghost var queue := queues[username];
      assert TakeQueue(pendingNotifications, username) == (Restrict(queues, usersToFlush - {username}), queue) by {
        assert pendingNotifications - {username} == Restrict(queues, usersToFlush - {username});
      }
      FlushUserNotifications(username, ok);
      ghost var flushed := order + [username];
      assert Distinct(flushed) by {
        assert username !in order;
      }
      assert manager.State() == DeliverUsers(st, flushed, queues, ok) by {
        assert flushed[..|flushed| - 1] == order;
      }
    }

    /** `getPendingNotificationCount()`: the events waiting in every queue, added up. */
    method GetPendingNotificationCount() returns (count: nat)
      ensures count == TotalSize(pendingNotifications)
    {
      count := 0;
      var users := pendingNotifications.Keys;
      assert Restrict(pendingNotifications, users) == pendingNotifications;
      while users != {}
        invariant users <= pendingNotifications.Keys
        invariant count + TotalSize(Restrict(pendingNotifications, users)) == TotalSize(pendingNotifications)
        decreases |users|
      {
        var u :| u in users;
        var rest := Restrict(pendingNotifications, users);
        TotalSizeRemove(rest, u);
        assert rest - {u} == Restrict(pendingNotifications, users - {u});
        count := count + |pendingNotifications[u]|;
        users := users - {u};
      }
      assert Restrict(pendingNotifications, {}) == map[];
    }

    /** `getPendingNotificationCount(user)`: the user's queue length, 0 for a user without one. */
    function GetUserPendingNotificationCount(username: string): (r: nat)
      reads this, manager
      requires Valid()
      ensures r < MAX_BATCH_SIZE
      ensures username !in pendingNotifications ==> r == 0
      ensures r == |PendingOf(pendingNotifications, username)|
    {
      if username in pendingNotifications then |pendingNotifications[username]| else 0
    }
  }
}
