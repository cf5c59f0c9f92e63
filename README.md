# Notification fan-out engine of the task-management app, in Dafny

This project models the real-time notification path of the task-management application. It
also models the small pure rules around that path.

- **Connection registry and replay buffer.** `SSEConnectionManager` keeps, per user, the list
  of live SSE connections on this pod and a buffer of the last 100 events.
  - Delivering an event stores it, writes it to every connection, and drops the connections
    that refused it.
  - Reconnecting with a Last-Event-ID replays the buffered events after that id.
  - The single-pod `NotificationService` does the same on its own maps, after checking the
    token and the event.
- **Batching.** `NotificationBatchingService` queues events per user. A queue is flushed as
  soon as it reaches five events, or when every queue is flushed.
- **The cross-pod bridge.** `RedisMessageConsumer.onMessage` reads an event from a broker
  message and hands it to this pod's registry.
- **Building events.** This covers the `NotificationEvent` record, its factories and its JSON
  shape, and the templates of `NotificationFactory`.
- **Choosing recipients.** `DirectNotificationService` and `TaskService` decide who receives
  each task notification.
- **Pure rules.** These are the task permissions, the enum parsing, the task mapper's partial
  update, the stream endpoint's choice of token, Last-Event-ID and CORS origin, and the
  client's JWT format and expiry checks.

Layout, one module per file:

| file | module | models |
|---|---|---|
| `wrappers.dfy` | `Wrappers` | `Option`, `Result` |
| `strings.dfy` | `Strings` | Java `trim`, `startsWith`, `equalsIgnoreCase`, `split`, `Long.toString`; JavaScript `split` |
| `sums.dfy` | `Sums` | the sum of list sizes in a map, as the counters compute it |
| `notification_event.dfy` | `Events` | `NotificationEvent.java` |
| `registry_spec.dfy` | `RegistrySpec` | the registry state as a value, and each operation on it |
| `registry.dfy` | `Registry` | `SSEConnectionManager.java`, as a class |
| `notification_service.dfy` | `Service` | `NotificationService.java`, as a class |
| `batching.dfy` | `Batching` | `NotificationBatchingService.java`, as a class |
| `redis_consumer.dfy` | `Consumer` | `RedisMessageConsumer.java` |
| `notification_controller.dfy` | `Controller` | `NotificationController.streamNotifications`, `CorsProperties` |
| `enums.dfy` | `Enums` | `TaskStatus.java`, `TaskPriority.java` |
| `tasks.dfy` | `Tasks` | the `Task` entity and the request and response shapes |
| `task_permissions.dfy` | `TaskPermissions` | `TaskPermissionHelper.java` |
| `task_mapper.dfy` | `TaskMapping` | `TaskMapper.java` |
| `task_service.dfy` | `TaskService` | `TaskService.java`: assignee and field updates |
| `notification_factory.dfy` | `Factory` | `NotificationFactory.java` |
| `recipients.dfy` | `Recipients` | the recipient rules of `DirectNotificationService.java` and `TaskService.java` |
| `auth_utils.dfy` | `AuthUtils` | `enhancedAuthUtils.ts` |

Modelling choices:

- **Connections.** An `SseEmitter` is a number handed out by a counter (`Conn`).
- **Writes.** Whether a write to a connection succeeds is an oracle `ok(conn, event)`. Every
  successful write is appended to a `pushed` log, so "what was sent to whom, in which order" is
  part of the state.
- **Classes and specifications.** The stateful services are classes whose maps are fields.
  Each method is proved against a function on the `RegistryState` value: `Deliver`, `Connect`,
  `Disconnect`, `Prune`, `Enqueue`, `TakeQueue` and `DeliverAll`. The properties the source
  promises are then proved about those functions.
- **Pure code** is functions with lemmas.
- **Timestamps.** A `LocalDateTime` is an epoch second plus a nano part. The wire format
  `yyyy-MM-dd'T'HH:mm:ss` keeps only the second.

## Model

| member | source | states |
|---|---|---|
| `Strings.BlankIffAllTrimmable` | backend/src/main/java/com/taskapp/service/SSEConnectionManager.java:51 | `s.trim().isEmpty()` holds exactly when every char of `s` is at most U+0020 |
| `Strings.EqualsIgnoreCaseSymmetric` | backend/src/main/java/com/taskapp/enums/TaskStatus.java:31 | `equalsIgnoreCase` gives the same answer whichever string is the receiver |
| `Strings.CharEqualsIgnoreCaseIffKey` | backend/src/main/java/com/taskapp/enums/TaskStatus.java:31 | two chars match in `equalsIgnoreCase` exactly when the lower cases of their upper cases are equal |
| `Strings.EqualsIgnoreCaseReflexive` | backend/src/main/java/com/taskapp/enums/TaskStatus.java:31 | every string equals itself ignoring case |
| `Strings.EqualsIgnoreCaseTransitive` | backend/src/main/java/com/taskapp/enums/TaskStatus.java:31 | matching ignoring case is transitive, so with the two lemmas above it is an equivalence |
| `Strings.MatchesAsciiLetter` | backend/src/main/java/com/taskapp/enums/TaskStatus.java:31 | the chars matching an upper-case ASCII letter are the letter, its lower case, and for I, S and K the dotted capital I and dotless i, the long s, and the Kelvin sign |
| `Strings.TrimIsInfix` | backend/src/main/java/com/taskapp/controller/NotificationController.java:59-60 | `trim` keeps one contiguous slice: every char before and after it is at most U+0020, and the slice neither starts nor ends with such a char |
| `Strings.TrimEdges` | backend/src/main/java/com/taskapp/controller/NotificationController.java:59-60 | what `trim` returns is empty or starts and ends with a char above U+0020 |
| `Strings.SplitOn` | frontend/src/contexts/enhancedAuthUtils.ts:172 | JavaScript `split` on one char: at least one part, and no part contains the separator |
| `Strings.JoinSplit` | frontend/src/contexts/enhancedAuthUtils.ts:172 | joining the parts of a split with the separator gives the string back |
| `Strings.SplitJoin` | frontend/src/contexts/enhancedAuthUtils.ts:172 | splitting parts that contain no separator, once joined, gives the parts back |
| `Strings.DropTrailingEmpty` | backend/src/main/java/com/taskapp/config/CorsProperties.java:13 | Java's `split` drops trailing empty strings: the result is a prefix that ends with a non-empty part, and only empty parts were dropped |
| `Strings.JavaSplitMembership` | backend/src/main/java/com/taskapp/config/CorsProperties.java:12-14 | for a non-empty string, being among Java's `split` parts is the same as being among all the parts |
| `Strings.DecimalRoundTrip` | backend/src/main/java/com/taskapp/service/NotificationFactory.java:48 | reading back the decimal digits of a natural number gives the number |
| `Strings.LongToStringInjective` | backend/src/main/java/com/taskapp/service/NotificationFactory.java:48 | `Long.toString` maps distinct numbers to distinct strings, so a task id written into an event still identifies the task |
| `Strings.LongToStringSign` | backend/src/main/java/com/taskapp/service/NotificationFactory.java:48 | `Long.toString` writes a leading '-' exactly for negative numbers, followed by the digits of the magnitude |
| `Strings.LongRoundTrip` | backend/src/main/java/com/taskapp/dto/NotificationEvent.java:26-27 | parsing what `Long.toString` writes gives the number back |
| `Sums.TotalSizeRemove` | backend/src/main/java/com/taskapp/service/SSEConnectionManager.java:241-245 | the summed size can be split at any user: that user's list length plus the sum over all other users |
| `Sums.TotalSizeUpdate` | backend/src/main/java/com/taskapp/service/SSEConnectionManager.java:241-245 | replacing one list changes the sum of the list sizes by the difference in that list's length |
| `Events.Create` | backend/src/main/java/com/taskapp/dto/NotificationEvent.java:33-41 | `create` sets id, type, message and username, and a timestamp with no sub-second part; the four task fields stay null |
| `Events.CreateTaskNotification` | backend/src/main/java/com/taskapp/dto/NotificationEvent.java:45-51 | the 5-argument factory is `create` plus taskId and taskTitle, with creator and assignee null |
| `Events.CreateFullTaskNotification` | backend/src/main/java/com/taskapp/dto/NotificationEvent.java:56-63 | the 7-argument factory is the 5-argument one plus creator and assignee, with every other field identical |
| `Events.Fields` | backend/src/main/java/com/taskapp/dto/NotificationEvent.java:22-29 | the nine properties are written under their own names, in declaration order |
| `Events.Lookup` | backend/src/main/java/com/taskapp/dto/NotificationEvent.java:19 | a key is found only if some member carries it, and it is absent exactly when no member does |
| `Events.EncodedLookup` | backend/src/main/java/com/taskapp/dto/NotificationEvent.java:20 | reading a property back from the encoding gives its JSON value, or nothing when the property is null |
| `Events.EncodeOmitsNulls` | backend/src/main/java/com/taskapp/dto/NotificationEvent.java:20 | the encoding contains no null member, and every key is a property name |
| `Events.RoundTrip` | backend/src/test/java/com/taskapp/dto/NotificationEventSerializationTest.java:28-74 | decoding the encoding of any event gives the event back, with the timestamp cut to the second |
| `Events.RoundTripExact` | backend/src/test/java/com/taskapp/dto/NotificationEventSerializationTest.java:28-74 | for a whole-second timestamp, the round trip gives back all nine fields exactly |
| `Events.KnownMembers` | backend/src/main/java/com/taskapp/dto/NotificationEvent.java:19 | after filtering, only members whose key is a property remain |
| `Events.DecodeSameKnown` | backend/src/main/java/com/taskapp/dto/NotificationEvent.java:19 | two payloads that agree on every property key decode to the same result |
| `Events.DecodeIgnoresUnknown` | backend/src/test/java/com/taskapp/dto/NotificationEventSerializationTest.java:218-251 | decoding ignores unknown keys: it equals decoding only the known members |
| `Events.DecodeIgnoresExtraMember` | backend/src/test/java/com/taskapp/dto/NotificationEventSerializationTest.java:218-251 | appending a member with an unknown key does not change the decoded event |
| `Events.CreatedEventRoundTrip` | backend/src/main/java/com/taskapp/dto/NotificationEvent.java:39 | every event made by `create` survives the trip through the wire unchanged |
| `RegistrySpec.EncodeEmptyIff` | backend/src/main/java/com/taskapp/service/SSEConnectionManager.java:192-195 | the event serialises to "{}" exactly when all its properties are null, which is the one event `sendToEmitter` refuses before writing |
| `RegistrySpec.RemoveFirst` | backend/src/main/java/com/taskapp/service/SSEConnectionManager.java:119 | `List.remove(o)` leaves the list alone when `o` is absent, and otherwise shortens it by one |
| `RegistrySpec.RemoveFirstNoDup` | backend/src/main/java/com/taskapp/service/SSEConnectionManager.java:119 | on a list without duplicates, removing the first occurrence removes the connection entirely |
| `RegistrySpec.Without` | backend/src/main/java/com/taskapp/service/SSEConnectionManager.java:119 | filtering keeps exactly the elements that are not in the removed set |
| `RegistrySpec.SucceededFailedPartition` | backend/src/main/java/com/taskapp/service/SSEConnectionManager.java:105-116 | every connection either succeeds or fails, the two counts add up to the list length, and success means `sendToEmitter` returned true |
| `RegistrySpec.WithoutFailedIsSucceeded` | backend/src/main/java/com/taskapp/service/SSEConnectionManager.java:119 | taking out exactly the refusing connections leaves the accepting ones, in list order |
| `RegistrySpec.PushAllMeaning` | backend/src/main/java/com/taskapp/service/SSEConnectionManager.java:109-110 | each connection in the list gets the event once, in list order |
| `RegistrySpec.PushToMeaning` | backend/src/main/java/com/taskapp/service/SSEConnectionManager.java:150-152 | replay writes each event once to the one connection, in buffer order |
| `RegistrySpec.LastN` | backend/src/main/java/com/taskapp/service/SSEConnectionManager.java:175-177 | the result holds `min(|s|, n)` elements, and they are the last ones of `s`, in order |
| `RegistrySpec.StoreRules` | backend/src/main/java/com/taskapp/service/SSEConnectionManager.java:170-180 | the buffer holds at most 100 events and ends with the new one; below the bound nothing is dropped, at the bound exactly the oldest is |
| `RegistrySpec.StoreAllKeepsLast` | backend/src/main/java/com/taskapp/service/SSEConnectionManager.java:170-180 | after any number of stores, the buffer is the last 100 of everything stored, in insertion order |
| `RegistrySpec.DeliverStores` | backend/src/main/java/com/taskapp/service/SSEConnectionManager.java:89-99 | delivery stores the event in the user's buffer whether or not the user is connected, and no other buffer changes |
| `RegistrySpec.DeliverKeepsOthers` | backend/src/main/java/com/taskapp/service/SSEConnectionManager.java:89-131 | delivery leaves every other user's connection entry as it was |
| `RegistrySpec.DeliverConnections` | backend/src/main/java/com/taskapp/service/SSEConnectionManager.java:105-130 | exactly the refusing connections are removed and the survivors keep their order; every survivor got the event once, in order; survivors plus failures equal the old count; the entry stays only while a connection remains; no list is left empty |
| `RegistrySpec.DeliverActiveCount` | backend/src/main/java/com/taskapp/service/SSEConnectionManager.java:241-245 | delivery lowers the active-connection count by exactly the number of failed sends |
| `RegistrySpec.SinceMeaning` | backend/src/main/java/com/taskapp/service/SSEConnectionManager.java:143-149 | nothing follows an id that is not buffered; otherwise the result is everything after the id's first occurrence |
| `RegistrySpec.SentWhileMeaning` | backend/src/main/java/com/taskapp/service/SSEConnectionManager.java:150-155 | replay sends a prefix of the events, each one accepted, and stops early only at an event the connection refuses |
| `RegistrySpec.ReplayLoopFound` | backend/src/main/java/com/taskapp/service/SSEConnectionManager.java:150-155 | once the id has been seen, the loop writes exactly the accepted prefix of the remaining events |
| `RegistrySpec.ReplayLoopMeaning` | backend/src/main/java/com/taskapp/service/SSEConnectionManager.java:146-159 | the loop as written, with its found flag, writes exactly the events after the first occurrence of the id, up to the first refusal |
| `RegistrySpec.ConnectRules` | backend/src/main/java/com/taskapp/service/SSEConnectionManager.java:48 | the new connection is appended to the user's list; the user's other connections, every other user's list and every buffer are unchanged |
| `RegistrySpec.ConnectReplays` | backend/src/main/java/com/taskapp/service/SSEConnectionManager.java:40-76 | connecting writes only to the new connection; with a null or blank lastEventId it writes nothing, otherwise it writes the buffered events after the id, in order, up to the first refusal |
| `RegistrySpec.ConnectActiveCount` | backend/src/main/java/com/taskapp/service/SSEConnectionManager.java:241-245 | connecting raises the active-connection count by one |
| `RegistrySpec.DisconnectRules` | backend/src/main/java/com/taskapp/service/SSEConnectionManager.java:228-236 | removal takes only that connection out of the user's list and drops an emptied entry; an unknown user or connection changes nothing; removing twice equals removing once |
| `RegistrySpec.DisconnectActiveCount` | backend/src/main/java/com/taskapp/service/SSEConnectionManager.java:241-245 | removal lowers the count by one when the connection was present, and otherwise not at all |
| `RegistrySpec.PruneRules` | backend/src/main/java/com/taskapp/service/SSEConnectionManager.java:265-280 | pruning keeps exactly the non-empty lists, unchanged; it is idempotent, and it does nothing to a registry whose lists are all non-empty |
| `Registry.ConnectionRegistry.constructor` | backend/src/main/java/com/taskapp/service/SSEConnectionManager.java:31-35 | the registry starts with no connections, no buffered events and nothing written |
| `Registry.ConnectionRegistry.CreateConnection` | backend/src/main/java/com/taskapp/service/SSEConnectionManager.java:40-76 | returns a connection that is in no list yet, and the new state is `Connect` of the old one |
| `Registry.ConnectionRegistry.HasConnection` | backend/src/main/java/com/taskapp/service/SSEConnectionManager.java:81-84 | holds exactly when the user is among the connected users, that is, has a non-empty list |
| `Registry.ConnectionRegistry.SendToUserLocal` | backend/src/main/java/com/taskapp/service/SSEConnectionManager.java:89-131 | the new state is `Deliver` of the old one, and the registry invariant is kept |
| `Registry.ConnectionRegistry.SendToEach` | backend/src/main/java/com/taskapp/service/SSEConnectionManager.java:105-116 | the loop returns, in order, exactly the connections whose send failed, and logs one write per accepting connection, in order |
| `Registry.ConnectionRegistry.SendNotificationsSince` | backend/src/main/java/com/taskapp/service/SSEConnectionManager.java:136-165 | the writes made are those of `ReplayPushes`: the events after the first matching id, stopping at the first refusal |
| `Registry.ConnectionRegistry.ReplayBuffer` | backend/src/main/java/com/taskapp/service/SSEConnectionManager.java:146-159 | the loop over one buffer logs exactly the writes `ReplayLoop` describes, in order |
| `Registry.ConnectionRegistry.StoreRecentNotification` | backend/src/main/java/com/taskapp/service/SSEConnectionManager.java:170-180 | only the user's buffer changes, and it becomes `Store` of the old buffer |
| `Registry.ConnectionRegistry.SendToEmitter` | backend/src/main/java/com/taskapp/service/SSEConnectionManager.java:185-223 | returns whether the event was written; the "{}" event is refused; exactly one write is logged on success and none on failure |
| `Registry.ConnectionRegistry.RemoveConnection` | backend/src/main/java/com/taskapp/service/SSEConnectionManager.java:228-236 | the new state is `Disconnect` of the old one |
| `Registry.ConnectionRegistry.GetActiveConnectionCount` | backend/src/main/java/com/taskapp/service/SSEConnectionManager.java:241-245 | the loop returns the sum of the sizes of all connection lists |
| `Registry.ConnectionRegistry.GetRecentNotificationCount` | backend/src/main/java/com/taskapp/service/SSEConnectionManager.java:250-253 | the buffer size: at most 100, and 0 for an unknown user |
| `Registry.ConnectionRegistry.GetConnectedUsers` | backend/src/main/java/com/taskapp/service/SSEConnectionManager.java:258-260 | the users with an entry, which are exactly those with a live connection |
| `Registry.ConnectionRegistry.RemoveStaleConnections` | backend/src/main/java/com/taskapp/service/SSEConnectionManager.java:265-280 | the connection map becomes `Prune` of the old one, and nothing else changes |
| `Registry.RemoveEach` | backend/src/main/java/com/taskapp/service/SSEConnectionManager.java:119 | removing each failed emitter in turn leaves the list without exactly those emitters |
| `Service.NotificationService.constructor` | backend/src/main/java/com/taskapp/service/NotificationService.java:25-29 | the service starts with no connections and no buffered events |
| `Service.NotificationService.CreateConnection` | backend/src/main/java/com/taskapp/service/NotificationService.java:31-76 | an unresolvable token fails with "Failed to create SSE connection" and registers nothing; otherwise a fresh connection is appended and the events after lastEventId are replayed (`Connect`) |
| `Service.NotificationService.SendNotification` | backend/src/main/java/com/taskapp/service/NotificationService.java:105-153 | a null event, or one with a null or blank username, changes nothing; otherwise the state becomes `Deliver` for that username |
| `Service.NotificationService.RemoveConnection` | backend/src/main/java/com/taskapp/service/NotificationService.java:201-209 | the new state is `Disconnect` of the old one |
| `Service.NotificationService.GetActiveConnectionCount` | backend/src/main/java/com/taskapp/service/NotificationService.java:212-216 | the sum of the sizes of all connection lists |
| `Service.NotificationService.GetRecentNotificationCount` | backend/src/main/java/com/taskapp/service/NotificationService.java:218-221 | between 0 and 100, and 0 for an unknown user |
| `Batching.EnqueueRules` | backend/src/main/java/com/taskapp/service/NotificationBatchingService.java:37-51 | queues stay non-empty and below 5; no event is lost or reordered; a flush happens exactly when the queue held 4 and sends exactly 5; other users are untouched; the pending total moves accordingly |
| `Batching.TakeQueueRules` | backend/src/main/java/com/taskapp/service/NotificationBatchingService.java:74-90 | a flush sends the user's whole queue, leaves the user with no pending events and every other user unchanged, and the pending total drops by what was sent |
| `Batching.DeliverAllBuffers` | backend/src/main/java/com/taskapp/service/NotificationBatchingService.java:93-99 | after a batch, the user's replay buffer is the old buffer with the batch stored in order, and other users' buffers and connections are unchanged |
| `Batching.DeliverUsersBuffers` | backend/src/main/java/com/taskapp/service/NotificationBatchingService.java:56-69 | after flushing users in any order, each flushed user's buffer has exactly that user's old queue stored after it, and other buffers are unchanged |
| `Batching.BatchingService.constructor` | backend/src/main/java/com/taskapp/service/NotificationBatchingService.java:28 | the batching service starts with no pending queues and keeps the registry it is given |
| `Batching.BatchingService.QueueNotification` | backend/src/main/java/com/taskapp/service/NotificationBatchingService.java:37-51 | a null user or event changes nothing; otherwise the queues become `Enqueue`'s, and the flushed batch, if any, is delivered in order |
| `Batching.BatchingService.FlushUserNotifications` | backend/src/main/java/com/taskapp/service/NotificationBatchingService.java:74-100 | the queues become `TakeQueue`'s and the drained queue is handed to `sendToUserLocal` event by event, in FIFO order; no queue or an empty queue changes nothing |
| `Batching.BatchingService.SendBatch` | backend/src/main/java/com/taskapp/service/NotificationBatchingService.java:93-99 | the registry state becomes `DeliverAll` of the batch |
| `Batching.BatchingService.FlushAllPendingNotifications` | backend/src/main/java/com/taskapp/service/NotificationBatchingService.java:56-69 | afterwards no events are pending; every user that had a queue is flushed exactly once, and the registry is `DeliverUsers` of the old queues |
| `Batching.BatchingService.GetPendingNotificationCount` | backend/src/main/java/com/taskapp/service/NotificationBatchingService.java:105-109 | the loop returns the sum of all queue lengths |
| `Batching.BatchingService.GetUserPendingNotificationCount` | backend/src/main/java/com/taskapp/service/NotificationBatchingService.java:114-117 | the user's queue length: below 5, and 0 for an unknown user |
| `Consumer.Route` | backend/src/main/java/com/taskapp/messaging/redis/RedisMessageConsumer.java:33-42 | a message is routed only when it decodes to an event with a non-blank username, and it goes to that username with the decoded event; anything else is dropped |
| `Consumer.RouteEncoded` | backend/src/test/java/com/taskapp/messaging/redis/RedisMessagingIntegrationTest.java:120-129 | an event published by another pod reaches the user it names exactly when that name is non-blank, and it arrives unchanged when its timestamp is whole seconds |
| `Consumer.RouteIgnoresUnknown` | backend/src/main/java/com/taskapp/messaging/redis/RedisMessageConsumer.java:33 | members with unknown keys do not change where a message goes |
| `Consumer.OnMessage` | backend/src/main/java/com/taskapp/messaging/redis/RedisMessageConsumer.java:25-47 | a dropped message changes nothing; a routed one is delivered once, as `Deliver` for its own username |
| `Controller.SelectLastEventId` | backend/src/main/java/com/taskapp/controller/NotificationController.java:35 | the header whenever it is present, even when empty; otherwise the query parameter |
| `Controller.SelectToken` | backend/src/main/java/com/taskapp/controller/NotificationController.java:55-65 | a "Bearer " header wins, and the token is what follows the prefix; otherwise a non-blank parameter, trimmed; otherwise none |
| `Controller.AllowedOrigin` | backend/src/main/java/com/taskapp/controller/NotificationController.java:47-52 | the Origin is echoed exactly when it equals one of the comma-split allowed origins |
| `Controller.DefaultAllowedOrigins` | backend/src/main/java/com/taskapp/config/CorsProperties.java:9-14 | with the default setting, exactly `http://localhost:3000` and `http://localhost:5173` are echoed |
| `Controller.StreamNotifications` | backend/src/main/java/com/taskapp/controller/NotificationController.java:27-96 | no token gives 401 and no connection is attempted; an unresolvable token gives 500 with nothing registered; otherwise the connection is made with the selected Last-Event-ID |
| `Enums.FindStatus` | backend/src/main/java/com/taskapp/enums/TaskStatus.java:30-34 | the search finds a status whose value matches ignoring case, and finds none exactly when no value matches |
| `Enums.FindPriority` | backend/src/main/java/com/taskapp/enums/TaskPriority.java:30-34 | the search finds a priority whose value matches ignoring case, and finds none exactly when no value matches |
| `Enums.StatusFromValue` | backend/src/main/java/com/taskapp/enums/TaskStatus.java:25-36 | null gives PENDING; otherwise a status whose value matches ignoring case, and an error exactly when no status matches |
| `Enums.PriorityFromValue` | backend/src/main/java/com/taskapp/enums/TaskPriority.java:25-36 | null gives MEDIUM; otherwise a priority whose value matches ignoring case, and an error exactly when no priority matches |
| `Enums.StatusValueOf` | backend/src/main/java/com/taskapp/service/TaskService.java:130 | `TaskStatus.valueOf` succeeds exactly on a constant's exact name, and returns that constant |
| `Enums.PriorityValueOf` | backend/src/main/java/com/taskapp/service/TaskService.java:135 | `TaskPriority.valueOf` succeeds exactly on a constant's exact name, and returns that constant |
| `Enums.StatusValuesDistinct` | backend/src/main/java/com/taskapp/enums/TaskStatus.java:4-7 | no two statuses have values that are equal ignoring case |
| `Enums.PriorityValuesDistinct` | backend/src/main/java/com/taskapp/enums/TaskPriority.java:4-7 | no two priorities have values that are equal ignoring case |
| `Enums.StatusRoundTrip` | backend/src/main/java/com/taskapp/enums/TaskStatus.java:17-36 | `fromValue(s.getValue()) == s` for every status |
| `Enums.PriorityRoundTrip` | backend/src/main/java/com/taskapp/enums/TaskPriority.java:17-36 | `fromValue(p.getValue()) == p` for every priority |
| `Enums.StatusFromValueUnique` | backend/src/main/java/com/taskapp/enums/TaskStatus.java:30-34 | whatever the input's case, `fromValue` returns the one status whose value matches it |
| `Enums.PriorityFromValueUnique` | backend/src/main/java/com/taskapp/enums/TaskPriority.java:30-34 | whatever the input's case, `fromValue` returns the one priority whose value matches it |
| `Enums.StatusToString` | backend/src/main/java/com/taskapp/enums/TaskStatus.java:38-41 | `toString` is the status's value, and `fromValue` reads it back |
| `Enums.PriorityToString` | backend/src/main/java/com/taskapp/enums/TaskPriority.java:38-41 | `toString` is the priority's value, and `fromValue` reads it back |
| `Enums.DotlessIStatus` | backend/src/main/java/com/taskapp/enums/TaskStatus.java:30-34 | `fromValue("pend\u0131ng")`, spelled with a dotless i, is PENDING |
| `Enums.LongSStatus` | backend/src/main/java/com/taskapp/enums/TaskStatus.java:30-34 | `fromValue` of "in_progre" followed by two long s chars (U+017F) is IN_PROGRESS |
| `Enums.DottedCapitalIStatus` | backend/src/main/java/com/taskapp/enums/TaskStatus.java:30-34 | `fromValue` of "n_progress" after a dotted capital I (U+0130) is IN_PROGRESS |
| `Enums.DotlessIPriority` | backend/src/main/java/com/taskapp/enums/TaskPriority.java:30-34 | `fromValue("h\u0131gh")`, spelled with a dotless i, is HIGH |
| `Tasks.Task.constructor` | backend/src/main/java/com/taskapp/entity/Task.java:30-35 | a new task has status PENDING, priority MEDIUM, and every other property null |
| `TaskPermissions.PermissionRules` | backend/src/main/java/com/taskapp/service/TaskPermissionHelper.java:29-51 | canUpdate iff creator or assignee; canDelete iff creator; canReassign equals canDelete; canView equals canUpdate |
| `TaskPermissions.DeleteImpliesUpdate` | backend/src/main/java/com/taskapp/service/TaskPermissionHelper.java:29-35 | whoever may delete may update, and a user who is neither creator nor assignee may do nothing |
| `TaskPermissions.Validate` | backend/src/main/java/com/taskapp/service/TaskPermissionHelper.java:11-27 | each validation raises exactly when its check fails, naming the user, the task id and the action |
| `TaskPermissions.ValidateOutcomes` | backend/src/main/java/com/taskapp/service/TaskPermissionHelper.java:11-51 | the creator passes every validation; the assignee passes only the update check; anyone else fails all three |
| `TaskMapping.UpdateFromRequest` | backend/src/main/java/com/taskapp/mapper/TaskMapper.java:38-51 | the task's new properties and the outcome are those of `ApplyRequest` |
| `TaskMapping.ApplyRequestFields` | backend/src/main/java/com/taskapp/mapper/TaskMapper.java:38-51 | each of title, description, status and priority is replaced iff the request's value is non-null; the update fails exactly when a status or priority is unreadable, and a failed status leaves status and priority alone |
| `TaskMapping.ApplyRequestKeeps` | backend/src/main/java/com/taskapp/mapper/TaskMapper.java:38-51 | an update never changes the id, creator, assignee or timestamps |
| `TaskMapping.ApplyRequestIdempotent` | backend/src/main/java/com/taskapp/mapper/TaskMapper.java:38-51 | applying the same request twice equals applying it once |
| `TaskMapping.ToResponse` | backend/src/main/java/com/taskapp/mapper/TaskMapper.java:12-25 | id, title, description and timestamps are copied; status and priority are written as their values, which `fromValue` reads back; the creator's and assignee's id and username are copied |
| `TaskMapping.EchoedUpdateIsNoOp` | backend/src/main/java/com/taskapp/mapper/TaskMapper.java:12-51 | sending a task's own response back as an update succeeds and changes nothing |
| `TaskMapping.ToEntity` | backend/src/main/java/com/taskapp/mapper/TaskMapper.java:26-37 | a new task with the request's title and description, status PENDING, the priority from `fromValue` or MEDIUM, and the given creator and assignee; an unreadable priority fails |
| `TaskService.DetermineTaskAssignee` | backend/src/main/java/com/taskapp/service/TaskService.java:55-61 | with no assignee in the request, the creator; otherwise the user found by id, and an error exactly when none is found |
| `TaskService.UpdateTaskFields` | backend/src/main/java/com/taskapp/service/TaskService.java:124-138 | the task's new properties and the result are those of `UpdateFields` |
| `TaskService.UpdateFieldsRules` | backend/src/main/java/com/taskapp/service/TaskService.java:124-138 | title and description are always overwritten, even with null; statusChanged iff the request names a status other than the old one; a null priority keeps the old one; failure exactly when a name is not a constant |
| `TaskService.HandleAssigneeUpdate` | backend/src/main/java/com/taskapp/service/TaskService.java:140-150 | the task's new assignee and the result are those of `UpdateAssignee` |
| `TaskService.UpdateAssigneeRules` | backend/src/main/java/com/taskapp/service/TaskService.java:140-150 | the assignee changes only when the request names one and the updater is the creator; the result is true iff the new assignee differs; failure exactly when that user is not found; nothing else changes |
| `Factory.Format` | backend/src/main/java/com/taskapp/service/NotificationFactory.java:34-36 | the message is the template's prefix followed by the title, with "null" for a null title |
| `Factory.GetMessageTemplate` | backend/src/main/java/com/taskapp/service/NotificationFactory.java:88-97 | each of the five types selects the template of the same name, any other string selects TASK_UPDATED, and the status template is never selected |
| `Factory.FormatDeterminesTemplate` | backend/src/main/java/com/taskapp/service/NotificationFactory.java:20-26 | two messages are equal only if they come from the same template and the same title text |
| `Factory.CreateTaskNotification` | backend/src/main/java/com/taskapp/service/NotificationFactory.java:40-53 | type, templated message, recipient username, the task id in decimal, the title, and creator and assignee usernames that are null exactly when those users are null; whole-second timestamp |
| `Factory.CreateTaskNotificationWith` | backend/src/main/java/com/taskapp/service/NotificationFactory.java:58-70 | the same event as the type's own template would give, except for the message taken from the given template |
| `Factory.CreateTaskNotificationById` | backend/src/main/java/com/taskapp/service/NotificationFactory.java:75-86 | type, templated message, recipient, task id and title are set, and creator and assignee are left null |
| `Factory.CreateTaskCreatedNotification` | backend/src/main/java/com/taskapp/service/NotificationFactory.java:100-102 | type TASK_CREATED, message "Task created: " + title |
| `Factory.CreateTaskAssignedNotification` | backend/src/main/java/com/taskapp/service/NotificationFactory.java:104-106 | type TASK_ASSIGNED, message "New task assigned: " + title, to the assignee |
| `Factory.CreateTaskUpdatedNotification` | backend/src/main/java/com/taskapp/service/NotificationFactory.java:108-110 | type TASK_UPDATED, message "Task updated: " + title |
| `Factory.CreateTaskStatusUpdatedNotification` | backend/src/main/java/com/taskapp/service/NotificationFactory.java:110-112 | type TASK_UPDATED with message "Task status updated: " + title, which differs from the plain update event |
| `Factory.CreateTaskReassignedNotification` | backend/src/main/java/com/taskapp/service/NotificationFactory.java:114-116 | type TASK_REASSIGNED, message "Task reassigned to you: " + title, to the new assignee |
| `Factory.CreateTaskDeletedNotification` | backend/src/main/java/com/taskapp/service/NotificationFactory.java:118-120 | type TASK_DELETED, message "Task was deleted: " + title |
| `Factory.CreateTaskDeletedNotificationById` | backend/src/main/java/com/taskapp/service/NotificationFactory.java:122-124 | type TASK_DELETED from the id and title alone, with creator and assignee null |
| `Factory.FactoryEventsRoundTrip` | backend/src/main/java/com/taskapp/service/NotificationFactory.java:40-53 | every event the factory builds survives the trip through the wire unchanged |
| `Recipients.TaskCreatedRecipients` | backend/src/main/java/com/taskapp/service/DirectNotificationService.java:24-38 | TASK_CREATED goes to the creator first; TASK_ASSIGNED goes to the assignee iff the assignee is not the creator; nothing else is sent |
| `Recipients.TaskDeletedRecipients` | backend/src/main/java/com/taskapp/service/TaskService.java:207-218 | TASK_DELETED goes to the creator first, and to the assignee as well iff different; nobody is notified twice |
| `Recipients.TaskUpdatedRules` | backend/src/main/java/com/taskapp/service/DirectNotificationService.java:62-85 | TASK_UPDATED to the creator and, after a status change, to the original assignee; TASK_REASSIGNED to a changed assignee; never to the updater; at most 3 events, the creator's first and the reassignment last |
| `AuthUtils.ValidateTokenFormat` | frontend/src/contexts/enhancedAuthUtils.ts:169-174 | an accepted token is non-empty and splits on '.' into exactly three parts that join back to it |
| `AuthUtils.TokenFormatAccepts` | frontend/src/contexts/enhancedAuthUtils.ts:169-174 | three non-empty, dot-free segments joined by dots are always accepted |
| `AuthUtils.TokenFormatShape` | frontend/src/contexts/enhancedAuthUtils.ts:169-174 | an accepted token is exactly three non-empty, dot-free segments joined by dots |
| `AuthUtils.PayloadSegment` | frontend/src/contexts/enhancedAuthUtils.ts:29-32 | the payload segment is the second dot-separated part; there is none when the token has no dot or that part is empty |
| `AuthUtils.IsTokenExpired` | frontend/src/contexts/enhancedAuthUtils.ts:49-62 | a missing token, or one without a usable `exp`, counts as expired |
| `AuthUtils.IsTokenExpiringSoon` | frontend/src/contexts/enhancedAuthUtils.ts:64-79 | a missing token, or one without a usable `exp`, is never expiring soon |
| `AuthUtils.ExpiredIffPast` | frontend/src/contexts/enhancedAuthUtils.ts:56-57 | with a usable `exp`, a token is expired iff `exp * 1000 <= now` in milliseconds, which is the same as `exp <= floor(now / 1000)` |
| `AuthUtils.NotExpiredAndExpiringSoon` | frontend/src/contexts/enhancedAuthUtils.ts:49-79 | for the same clock reading, a token is never both expired and expiring soon |
| `AuthUtils.ExpiringSoonWindow` | frontend/src/contexts/enhancedAuthUtils.ts:24-79 | with the default threshold, a token is expiring soon iff it expires within the next 1 to 300 whole seconds |
| `AuthUtils.ValidateUserData` | frontend/src/contexts/enhancedAuthUtils.ts:176-183 | accepted iff the record exists, its id is a number, and its username and email are non-empty strings |

## Left out

- Strings.EqualsIgnoreCase: of Java's Unicode case maps, only those that reach an ASCII letter
  are modelled (ASCII letters, U+0130, U+0131, U+017F, U+212A); any other char is its own upper and
  lower case. Every comparison the core makes has an enum value, all ASCII capitals and '_', on one
  side, and for those comparisons the two rules agree, so `Enums.FindStatus`, `Enums.FindPriority`,
  `Enums.StatusFromValue` and `Enums.PriorityFromValue` decide as Java does. Comparisons between two
  strings that both hold other non-ASCII letters (say 'é' against 'É') differ from Java's.
- Strings.EqualsIgnoreCaseSymmetric: like `Strings.EqualsIgnoreCaseTransitive`, it is proved of the
  rule above, not of Java's full Unicode case maps.
- Network I/O. SSE writes and their exceptions are the `ok` oracle. The Jackson serialisation
  inside `sendToEmitter` is the `Encode` model. Text-level JSON parsing of a broker message is
  not modelled: `Consumer.Route` takes the parsed object, and `None` stands for text that is not
  a JSON object.
- Concurrency. The concurrent maps, the copy-on-write lists and the concurrent queues are
  modelled as plain sequential state. The `@Scheduled` timer that calls
  `flushAllPendingNotifications` is an explicit method call.
- Batching.BatchingService.FlushAllPendingNotifications: the Java code iterates the users in
  the map's key order. The model returns the order it used as a ghost value and proves the
  result for that order, which can be any order.
- SSE lifecycle callbacks (`onCompletion`, `onTimeout`, `onError` at
  SSEConnectionManager.java:56-70 and in `NotificationService.createConnection`). They are not
  registered. Their effect is the explicit `RemoveConnection` method.
- The initial "connected" event written by `streamNotifications` (NotificationController.java:71-80),
  and the 500 answer when that write fails. Response headers are not modelled either.
- Token resolution in `NotificationService.createConnection` (`JwtTokenProvider`). It is a
  parameter `resolve` from token to username. Every exception is modelled as `resolve`
  answering none, which gives the "Failed to create SSE connection" error.
- Id and clock generation. `generateId` and `LocalDateTime.now()` are nondeterministic, so the
  event id and the clock reading are parameters. The formatted date text of a timestamp is
  modelled as its epoch second in decimal; it carries the same information.
- Registry.ConnectionRegistry.SendToUserLocal: an exception escaping the loop is not modelled,
  because every failure of a write is caught inside `sendToEmitter`.
- Registry.ConnectionRegistry.ReplayBuffer: the replay loop has no handler of its own; every
  write it makes goes through `sendToEmitter`, whose catch blocks (SSEConnectionManager.java:208-222)
  turn each failure into `false`, which the model's send oracle stands for.
- The status endpoint and its messaging-health path. `isMessagingHealthy` is not defined by
  `NotificationService`.
- Redis plumbing: `RedisMessagePublisher`, the messaging configuration and `PubSubMessage`.
- Decoding the JWT payload (base64 and `JSON.parse` in `parseJwtPayload`). The `exp` claim is
  an input; `None` stands for a payload that is missing, unparseable or without `exp`.
  Reading from and writing to `localStorage` is not modelled.
- frontend/src/utils/jwtUtils.ts:33 repeats the expiry check with a strict `<`, where
  `enhancedAuthUtils.ts:57` uses `<=`. At the exact second of `exp` the two disagree. Only the
  `enhancedAuthUtils.ts` version is modelled.
- AuthUtils.ValidateUserData: JavaScript values are reduced to their type and, for strings,
  their text. Numbers carry no value, because only their type is checked.
- Factory.CreateTaskNotification: it requires a task id. With a null id, `task.getId().toString()`
  throws a NullPointerException, and the model does not represent that exception.
- Service.NotificationService: its two maps are held in a `ConnectionRegistry`, because the
  Java class updates them exactly as `SSEConnectionManager` does. Its own `sendToEmitter` and
  `storeRecentNotification` are therefore those of the registry.
- Events: JSON numbers are integers. No event property holds a floating-point number.
- The other task-service operations (`createTask`, `getTasksForUser`, `updateTask` and
  `deleteTask` themselves) are repository calls around the modelled rules. Their recipient
  rules are in `Recipients`. `buildTaskFromRequest` (TaskService.java:61-72) differs from
  `TaskMapping.ToEntity` only in using `valueOf` for the priority, and is not modelled
  separately.
