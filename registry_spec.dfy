/**
 * The state of a pod's SSE connection registry as values, and what each of its operations does
 * to that state. A connection (an SseEmitter) is identified by a number handed out when it is
 * created; writing an event to it is an oracle `ok(conn, event)` that answers whether the write
 * went through, and every write that does is recorded, in order, in `pushed`.
 */
module RegistrySpec {
  import opened Wrappers
  import opened Strings
  import opened Events
  import opened Sums

  type Conn = nat

  /** The replay buffer keeps the last 100 events per user. */
  const MAX_RECENT_NOTIFICATIONS: nat := 100

  /** One event written to one connection. */
  datatype Push = Push(conn: Conn, event: NotificationEvent)

  datatype RegistryState = RegistryState(
    connections: map<string, seq<Conn>>,
    recent: map<string, seq<NotificationEvent>>,
    pushed: seq<Push>)

  /**
   * The check made before an event is delivered: it names a user, and the name is not blank
   * (empty once characters up to the space are trimmed from both ends).
   */
  predicate Addressed(e: NotificationEvent) {
    e.username.Some? && !IsBlank(e.username.value)
  }

  /**
   * `sendToEmitter`: an event whose JSON is the empty object "{}", which is the event with every
   * property null, is refused before any write; any other write succeeds exactly when the
   * connection accepts it.
   */
  predicate Sends(conn: Conn, e: NotificationEvent, ok: (Conn, NotificationEvent) -> bool) {
    e != EmptyEvent && ok(conn, e)
  }

  /** The serialised event is the empty object exactly when every property is null. */
  lemma EncodeEmptyIff(e: NotificationEvent)
    ensures Encode(e) == [] <==> e == EmptyEvent
  {
    if e == EmptyEvent {
      NoPresentFields(Fields(e));
    }
    if Encode(e) == [] {
      forall i | 0 <= i < |Keys|
        ensures Fields(e)[i].1 == None
      {
        EncodedLookup(e, i);
      }
      var fs := Fields(e);
      assert fs[0].1 == TextJson(e.id) && fs[1].1 == TextJson(e.eventType) && fs[2].1 == TextJson(e.message);
      assert fs[3].1 == TextJson(e.taskId) && fs[4].1 == TextJson(e.taskTitle) && fs[5].1 == TextJson(e.username);
      assert fs[6].1 == TimestampJson(e.timestamp);
      assert fs[7].1 == TextJson(e.creatorUsername) && fs[8].1 == TextJson(e.assignedUsername);
    }
  }

  lemma {:induction false} NoPresentFields(fs: seq<(string, Option<Json>)>)
    requires forall i :: 0 <= i < |fs| ==> fs[i].1.None?
    ensures Present(fs) == []
  {
    if fs != [] {
      NoPresentFields(fs[..|fs| - 1]);
    }
  }

  // ----- sequences of connections -----

  /** The connections a list holds. */
  function Elems(s: seq<Conn>): set<Conn> {
    set c | c in s
  }

  predicate NoDup(s: seq<Conn>) {
    forall i, j :: 0 <= i < j < |s| ==> s[i] != s[j]
  }

  /** `List.remove(o)`: the first occurrence of `x` removed, if there is one. */
  function RemoveFirst(s: seq<Conn>, x: Conn): (r: seq<Conn>)
    ensures x !in s ==> r == s
    ensures x in s ==> |r| == |s| - 1
  {
    if s == [] then []
    else if s[0] == x then s[1..]
    else [s[0]] + RemoveFirst(s[1..], x)
  }

  /** The elements of `s` that are not in `xs`, in their order in `s`. */
  function Without(s: seq<Conn>, xs: set<Conn>): (r: seq<Conn>)
    ensures forall x :: x in r <==> x in s && x !in xs
    ensures |r| <= |s|
  {
    if s == [] then []
    else (if s[0] in xs then [] else [s[0]]) + Without(s[1..], xs)
  }

  lemma {:induction false} WithoutAppend(s: seq<Conn>, t: seq<Conn>, xs: set<Conn>)
    ensures Without(s + t, xs) == Without(s, xs) + Without(t, xs)
  {
    if s != [] {
      assert (s + t)[1..] == s[1..] + t;
      WithoutAppend(s[1..], t, xs);
    } else {
      assert s + t == t;
    }
  }

  lemma {:induction false} WithoutTwice(s: seq<Conn>, xs: set<Conn>, ys: set<Conn>)
    ensures Without(Without(s, xs), ys) == Without(s, xs + ys)
  {
    if s != [] {
      WithoutTwice(s[1..], xs, ys);
      var w := Without(s, xs);
      if s[0] !in xs {
        assert w == [s[0]] + Without(s[1..], xs);
        assert w[1..] == Without(s[1..], xs);
        assert Without(w, ys) == (if s[0] in ys then [] else [s[0]]) + Without(w[1..], ys);
      } else {
        assert w == Without(s[1..], xs);
      }
    }
  }

  lemma {:induction false} WithoutNoDup(s: seq<Conn>, xs: set<Conn>)
    requires NoDup(s)
    ensures NoDup(Without(s, xs))
  {
    if s != [] {
      assert NoDup(s[1..]) by {
        forall i, j | 0 <= i < j < |s[1..]| ensures s[1..][i] != s[1..][j] {
          assert s[1..][i] == s[i + 1] && s[1..][j] == s[j + 1];
        }
      }
      WithoutNoDup(s[1..], xs);
      assert s[0] !in s[1..] by {
        forall k | 0 <= k < |s[1..]| ensures s[1..][k] != s[0] {
          assert s[1..][k] == s[k + 1];
        }
      }
    }
  }

  /** On a list without duplicates, removing the first occurrence removes every occurrence. */
  lemma {:induction false} RemoveFirstNoDup(s: seq<Conn>, x: Conn)
    requires NoDup(s)
    ensures RemoveFirst(s, x) == Without(s, {x})
  {
    if s != [] {
      assert NoDup(s[1..]) by {
        forall i, j | 0 <= i < j < |s[1..]| ensures s[1..][i] != s[1..][j] {
          assert s[1..][i] == s[i + 1] && s[1..][j] == s[j + 1];
        }
      }
      RemoveFirstNoDup(s[1..], x);
      if s[0] == x {
        assert x !in s[1..] by {
          forall k | 0 <= k < |s[1..]| ensures s[1..][k] != s[0] {
            assert s[1..][k] == s[k + 1];
          }
        }
        assert Without(s[1..], {x}) == s[1..] by {
          WithoutUnchanged(s[1..], {x});
        }
      }
    }
  }

  lemma {:induction false} WithoutUnchanged(s: seq<Conn>, xs: set<Conn>)
    requires forall x :: x in s ==> x !in xs
    ensures Without(s, xs) == s
  {
    if s != [] {
      WithoutUnchanged(s[1..], xs);
      assert [s[0]] + s[1..] == s;
    }
  }

  /** Every connection list in the map is non-empty and free of duplicates. */
  predicate WellFormed(connections: map<string, seq<Conn>>) {
    forall u :: u in connections ==> connections[u] != [] && NoDup(connections[u])
  }

  /** Every connection in the map is numbered below `n`. */
  predicate Below(connections: map<string, seq<Conn>>, n: nat) {
    forall u, c :: u in connections && c in connections[u] ==> c < n
  }

  /** The user's list replaced, and the user's entry dropped when the new list is empty. */
  function SetList(connections: map<string, seq<Conn>>, user: string, l: seq<Conn>): map<string, seq<Conn>> {
    if l == [] then connections - {user} else connections[user := l]
  }

  /** Replacing a list by one without duplicates, drawn from connections below `n`, keeps both properties. */
  lemma SetListKeeps(connections: map<string, seq<Conn>>, user: string, l: seq<Conn>, n: nat)
    requires WellFormed(connections) && NoDup(l)
    ensures WellFormed(SetList(connections, user, l))
    ensures Below(connections, n) && (forall c :: c in l ==> c < n) ==> Below(SetList(connections, user, l), n)
  {
  }

  // ----- delivering one event to a user's connections -----

  /** The connections, in order, that accept the event. */
  function Succeeded(conns: seq<Conn>, e: NotificationEvent, ok: (Conn, NotificationEvent) -> bool)
    : seq<Conn>
  {
    if conns == [] then []
    else
      var last := conns[|conns| - 1];
      Succeeded(conns[..|conns| - 1], e, ok) + (if Sends(last, e, ok) then [last] else [])
  }

  /** The connections, in order, that refuse the event. */
  function Failed(conns: seq<Conn>, e: NotificationEvent, ok: (Conn, NotificationEvent) -> bool)
    : seq<Conn>
  {
    if conns == [] then []
    else
      var last := conns[|conns| - 1];
      Failed(conns[..|conns| - 1], e, ok) + (if Sends(last, e, ok) then [] else [last])
  }

  /**
   * The connections split exactly in two: every one either succeeds or fails, the counts add up,
   * and the successful ones are the list with the failed ones taken out.
   */
  lemma {:induction false} SucceededFailedPartition(conns: seq<Conn>, e: NotificationEvent,
                                                     ok: (Conn, NotificationEvent) -> bool)
    ensures |Succeeded(conns, e, ok)| + |Failed(conns, e, ok)| == |conns|
    ensures forall c :: c in Succeeded(conns, e, ok) <==> c in conns && Sends(c, e, ok)
    ensures forall c :: c in Failed(conns, e, ok) <==> c in conns && !Sends(c, e, ok)
  {
    if conns != [] {
      var init := conns[..|conns| - 1];
      SucceededFailedPartition(init, e, ok);
      assert conns == init + [conns[|conns| - 1]];
    }
  }

  /** Filtering out a set that holds exactly the refusing connections leaves the successful ones. */
  lemma {:induction false} WithoutFailedIsSucceeded(conns: seq<Conn>, failed: set<Conn>, e: NotificationEvent,
                                                    ok: (Conn, NotificationEvent) -> bool)
    requires forall c :: c in conns ==> (c in failed <==> !Sends(c, e, ok))
    ensures Without(conns, failed) == Succeeded(conns, e, ok)
  {
    if conns != [] {
      var init, last := conns[..|conns| - 1], conns[|conns| - 1];
      assert conns == init + [last];
      WithoutAppend(init, [last], failed);
      WithoutFailedIsSucceeded(init, failed, e, ok);
      assert Without([last], failed) == (if last in failed then [] else [last]);
    }
  }

  /** One more connection tried: it joins the successful or the failed ones. */
  lemma DeliverStep(conns: seq<Conn>, i: nat, e: NotificationEvent, ok: (Conn, NotificationEvent) -> bool)
    requires i < |conns|
    ensures Succeeded(conns[..i + 1], e, ok)
         == Succeeded(conns[..i], e, ok) + (if Sends(conns[i], e, ok) then [conns[i]] else [])
    ensures Failed(conns[..i + 1], e, ok)
         == Failed(conns[..i], e, ok) + (if Sends(conns[i], e, ok) then [] else [conns[i]])
  {
    assert conns[..i + 1][..i] == conns[..i];
  }

  /** Each connection in order paired with the event. */
  function PushAll(conns: seq<Conn>, e: NotificationEvent): seq<Push> {
    if conns == [] then [] else PushAll(conns[..|conns| - 1], e) + [Push(conns[|conns| - 1], e)]
  }

  /** Each connection gets the event exactly once, in list order. */
  lemma {:induction false} PushAllMeaning(conns: seq<Conn>, e: NotificationEvent)
    ensures |PushAll(conns, e)| == |conns|
    ensures forall i :: 0 <= i < |conns| ==> PushAll(conns, e)[i] == Push(conns[i], e)
  {
    if conns != [] {
      PushAllMeaning(conns[..|conns| - 1], e);
    }
  }

  lemma PushAllSnoc(conns: seq<Conn>, c: Conn, e: NotificationEvent)
    ensures PushAll(conns + [c], e) == PushAll(conns, e) + [Push(c, e)]
  {
    assert (conns + [c])[..|conns|] == conns;
  }

  /** The events in order, each written to one connection. */
  function PushTo(conn: Conn, events: seq<NotificationEvent>): seq<Push> {
    if events == [] then [] else PushTo(conn, events[..|events| - 1]) + [Push(conn, events[|events| - 1])]
  }

  /** The connection gets each event exactly once, in order. */
  lemma {:induction false} PushToMeaning(conn: Conn, events: seq<NotificationEvent>)
    ensures |PushTo(conn, events)| == |events|
    ensures forall i :: 0 <= i < |events| ==> PushTo(conn, events)[i] == Push(conn, events[i])
  {
    if events != [] {
      PushToMeaning(conn, events[..|events| - 1]);
    }
  }

  lemma PushToSnoc(conn: Conn, events: seq<NotificationEvent>, e: NotificationEvent)
    ensures PushTo(conn, events + [e]) == PushTo(conn, events) + [Push(conn, e)]
  {
    assert (events + [e])[..|events|] == events;
  }

  function ConnsOf(st: RegistryState, user: string): seq<Conn> {
    if user in st.connections then st.connections[user] else []
  }

  function BufferOf(recent: map<string, seq<NotificationEvent>>, user: string): seq<NotificationEvent> {
    if user in recent then recent[user] else []
  }

  /** The last `n` elements of `s`, or all of it when it is shorter. */
  function LastN<T>(s: seq<T>, n: nat): (r: seq<T>)
    ensures |r| == if |s| > n then n else |s|
    ensures forall i :: 0 <= i < |r| ==> r[i] == s[|s| - |r| + i]
  {
    if |s| > n then s[|s| - n..] else s
  }

  /**
   * `storeRecentNotification`: the event is appended to the user's buffer and the oldest are
   * dropped while it holds more than 100.
   */
  function Store(buffer: seq<NotificationEvent>, e: NotificationEvent): seq<NotificationEvent> {
    LastN(buffer + [e], MAX_RECENT_NOTIFICATIONS)
  }

  /**
   * The buffer never holds more than 100 events and always ends with the newest; below the bound
   * nothing is dropped, at the bound exactly the oldest is.
   */
  lemma StoreRules(buffer: seq<NotificationEvent>, e: NotificationEvent)
    ensures var r := Store(buffer, e);
      && |r| <= MAX_RECENT_NOTIFICATIONS && r != [] && r[|r| - 1] == e
      && (|buffer| < MAX_RECENT_NOTIFICATIONS ==> r == buffer + [e])
      && (|buffer| == MAX_RECENT_NOTIFICATIONS ==> r == buffer[1..] + [e])
  {
    var r := Store(buffer, e);
    if |buffer| == MAX_RECENT_NOTIFICATIONS {
      assert r == (buffer + [e])[1..];
    }
  }

  /** Truncating before appending more changes nothing once the result is truncated again. */
  lemma LastNAppend<T>(s: seq<T>, t: seq<T>, n: nat)
    ensures LastN(LastN(s, n) + t, n) == LastN(s + t, n)
  {
    if |s| > n {
      var x, k := s + t, |s| - n;
      assert LastN(s, n) + t == x[k..];
      assert x[k..][|x[k..]| - n..] == x[|x| - n..];
    }
  }

  /** A sequence of events stored one by one, oldest first. */
  function StoreAll(buffer: seq<NotificationEvent>, events: seq<NotificationEvent>): seq<NotificationEvent> {
    if events == [] then buffer
    else Store(StoreAll(buffer, events[..|events| - 1]), events[|events| - 1])
  }

  /** However many events are stored, the buffer holds the last 100 of everything stored, in order. */
  lemma {:induction false} StoreAllKeepsLast(buffer: seq<NotificationEvent>, events: seq<NotificationEvent>)
    requires |buffer| <= MAX_RECENT_NOTIFICATIONS
    ensures StoreAll(buffer, events) == LastN(buffer + events, MAX_RECENT_NOTIFICATIONS)
  {
    if events == [] {
      assert buffer + events == buffer;
    } else {
      var init, last := events[..|events| - 1], events[|events| - 1];
      StoreAllKeepsLast(buffer, init);
      StoreAllStep(buffer, init, last);
      assert init + [last] == events;
    }
  }

  /** One more event stored keeps the last 100 of everything stored so far. */
  lemma StoreAllStep(buffer: seq<NotificationEvent>, init: seq<NotificationEvent>, last: NotificationEvent)
    requires StoreAll(buffer, init) == LastN(buffer + init, MAX_RECENT_NOTIFICATIONS)
    ensures StoreAll(buffer, init + [last]) == LastN(buffer + (init + [last]), MAX_RECENT_NOTIFICATIONS)
  {
    var events := init + [last];
    assert events[..|events| - 1] == init;
    LastNAppend(buffer + init, [last], MAX_RECENT_NOTIFICATIONS);
    assert buffer + init + [last] == buffer + events;
  }

  /**
   * `sendToUserLocal(user, e)`: the event is stored for replay first, whether or not the user is
   * connected; when the user has connections, it is written to each in order, the connections
   * that refuse it are removed, and the user's entry goes when none is left.
   */
  function Deliver(st: RegistryState, user: string, e: NotificationEvent,
                   ok: (Conn, NotificationEvent) -> bool): RegistryState
  {
    var recent := st.recent[user := Store(BufferOf(st.recent, user), e)];
    if user !in st.connections || st.connections[user] == [] then st.(recent := recent)
    else
      var live := Succeeded(st.connections[user], e, ok);
      RegistryState(SetList(st.connections, user, live),
                    recent, st.pushed + PushAll(live, e))
  }


  /** The event lands in the user's buffer whether or not the user is connected. */
  lemma DeliverStores(st: RegistryState, user: string, e: NotificationEvent,
                      ok: (Conn, NotificationEvent) -> bool)
    ensures var st' := Deliver(st, user, e, ok);
      && user in st'.recent && st'.recent[user] == Store(BufferOf(st.recent, user), e)
      && (forall v :: v != user ==> BufferOf(st'.recent, v) == BufferOf(st.recent, v))
  {
  }

  /** Delivery touches no other user's connections. */
  lemma DeliverKeepsOthers(st: RegistryState, user: string, e: NotificationEvent,
                           ok: (Conn, NotificationEvent) -> bool)
    ensures var st' := Deliver(st, user, e, ok);
      forall v :: v != user ==> (v in st'.connections <==> v in st.connections) && ConnsOf(st', v) == ConnsOf(st, v)
  {
  }

  /**
   * Delivery writes the event once to each of the user's connections that accepts it, in list
   * order; exactly the refusing connections are removed, the survivors keep their order, every
   * connection is counted as a success or a failure, and the user's entry stays only while some
   * connection accepted the event.
   */
  lemma {:induction false} DeliverConnections(st: RegistryState, user: string, e: NotificationEvent,
                                              ok: (Conn, NotificationEvent) -> bool)
    requires WellFormed(st.connections)
    ensures var st' := Deliver(st, user, e, ok);
      var old_ := ConnsOf(st, user);
      && WellFormed(st'.connections)
      && ConnsOf(st', user) == Without(old_, Elems(Failed(old_, e, ok)))
      && (forall c :: c in ConnsOf(st', user) <==> c in old_ && Sends(c, e, ok))
      && st'.pushed == st.pushed + PushAll(ConnsOf(st', user), e)
      && |ConnsOf(st', user)| + |Failed(old_, e, ok)| == |old_|
      && (user in st'.connections <==> exists c :: c in old_ && Sends(c, e, ok))
  {
    var old_ := ConnsOf(st, user);
    var st' := Deliver(st, user, e, ok);
    var live := Succeeded(old_, e, ok);
    var failed := Failed(old_, e, ok);
    assert ConnsOf(st', user) == live && st'.pushed == st.pushed + PushAll(live, e) by {
      if !(user in st.connections && old_ != []) {
        assert PushAll([], e) == [];
      }
    }
    SucceededFailedPartition(old_, e, ok);
    assert live == Without(old_, Elems(failed)) by {
      WithoutFailedIsSucceeded(old_, Elems(failed), e, ok);
    }
    assert WellFormed(st'.connections) by {
      if user in st.connections && old_ != [] {
        WithoutNoDup(old_, Elems(failed));
        SetListKeeps(st.connections, user, live, 0);
      }
    }
    assert user in st'.connections <==> live != [];
    if live != [] {
      assert live[0] in live;
    }
  }

  /** Delivery lowers the pod's connection count by exactly the number of refusing connections. */
  lemma DeliverActiveCount(st: RegistryState, user: string, e: NotificationEvent,
                           ok: (Conn, NotificationEvent) -> bool)
    requires WellFormed(st.connections)
    ensures TotalSize(Deliver(st, user, e, ok).connections) + |Failed(ConnsOf(st, user), e, ok)|
         == TotalSize(st.connections)
  {
    var old_ := ConnsOf(st, user);
    SucceededFailedPartition(old_, e, ok);
    if user in st.connections && old_ != [] {
      var live := Succeeded(old_, e, ok);
      TotalSizeRemove(st.connections, user);
      if live == [] {
        assert Deliver(st, user, e, ok).connections == st.connections - {user};
      } else {
        TotalSizeUpdate(st.connections, user, live);
      }
    }
  }

  // ----- replay after a reconnect -----

  /** The buffered events strictly after the first one whose id is `lastEventId`. */
  function Since(buffer: seq<NotificationEvent>, lastEventId: string): seq<NotificationEvent> {
    if buffer == [] then []
    else if buffer[0].id == Some(lastEventId) then buffer[1..]
    else Since(buffer[1..], lastEventId)
  }

  /** Nothing is replayed for an unknown id; otherwise everything after its first occurrence. */
  lemma {:induction false} SinceMeaning(buffer: seq<NotificationEvent>, lastEventId: string)
    ensures (forall k :: 0 <= k < |buffer| ==> buffer[k].id != Some(lastEventId)) ==>
              Since(buffer, lastEventId) == []
    ensures forall k :: 0 <= k < |buffer| && buffer[k].id == Some(lastEventId)
                        && (forall j :: 0 <= j < k ==> buffer[j].id != Some(lastEventId)) ==>
              Since(buffer, lastEventId) == buffer[k + 1..]
  {
    if buffer != [] {
      SinceMeaning(buffer[1..], lastEventId);
      forall k | 0 <= k < |buffer| && buffer[k].id == Some(lastEventId)
                 && (forall j :: 0 <= j < k ==> buffer[j].id != Some(lastEventId))
        ensures Since(buffer, lastEventId) == buffer[k + 1..]
      {
        if k > 0 {
          assert buffer[1..][k - 1] == buffer[k];
          assert forall j :: 0 <= j < k - 1 ==> buffer[1..][j] == buffer[j + 1];
          assert buffer[1..][k..] == buffer[k + 1..];
        }
      }
      if forall k :: 0 <= k < |buffer| ==> buffer[k].id != Some(lastEventId) {
        assert forall k :: 0 <= k < |buffer[1..]| ==> buffer[1..][k] == buffer[k + 1];
      }
    }
  }

  /** The longest prefix of `events` that the connection accepts: replay stops at the first refusal. */
  function SentWhile(conn: Conn, events: seq<NotificationEvent>, ok: (Conn, NotificationEvent) -> bool)
    : seq<NotificationEvent>
  {
    if events == [] then []
    else if Sends(conn, events[0], ok) then [events[0]] + SentWhile(conn, events[1..], ok)
    else []
  }

  /**
   * What replay writes is a prefix of the events, every one of them accepted, and it stops only
   * at the end or at an event the connection refuses.
   */
  lemma {:induction false} SentWhileMeaning(conn: Conn, events: seq<NotificationEvent>,
                                            ok: (Conn, NotificationEvent) -> bool)
    ensures var r := SentWhile(conn, events, ok);
      && |r| <= |events| && r == events[..|r|]
      && (forall i :: 0 <= i < |r| ==> Sends(conn, r[i], ok))
      && (|r| < |events| ==> !Sends(conn, events[|r|], ok))
  {
    if events != [] && Sends(conn, events[0], ok) {
      SentWhileMeaning(conn, events[1..], ok);
      var r := SentWhile(conn, events, ok);
      assert r == [events[0]] + SentWhile(conn, events[1..], ok);
      forall i | 0 <= i < |r| ensures Sends(conn, r[i], ok) {
        if i > 0 {
          assert r[i] == SentWhile(conn, events[1..], ok)[i - 1];
        }
      }
    }
  }

  /**
   * The replay loop as it walks the buffer: before the id is found it only looks for it; once it
   * is found, it writes each following event and stops at the first refusal.
   */
  function ReplayLoop(conn: Conn, events: seq<NotificationEvent>, lastEventId: string, found: bool,
                      ok: (Conn, NotificationEvent) -> bool): seq<NotificationEvent>
  {
    if events == [] then []
    else if found then
      if Sends(conn, events[0], ok) then [events[0]] + ReplayLoop(conn, events[1..], lastEventId, true, ok)
      else []
    else ReplayLoop(conn, events[1..], lastEventId, events[0].id == Some(lastEventId), ok)
  }

  lemma ReplayLoopStep(conn: Conn, buffer: seq<NotificationEvent>, i: nat, lastEventId: string, found: bool,
                       ok: (Conn, NotificationEvent) -> bool)
    requires i < |buffer|
    ensures ReplayLoop(conn, buffer[i..], lastEventId, found, ok)
         == if found then
              if Sends(conn, buffer[i], ok) then [buffer[i]] + ReplayLoop(conn, buffer[i + 1..], lastEventId, true, ok)
              else []
            else ReplayLoop(conn, buffer[i + 1..], lastEventId, buffer[i].id == Some(lastEventId), ok)
  {
    assert buffer[i..][0] == buffer[i];
    assert buffer[i..][1..] == buffer[i + 1..];
  }

  /** Once the id is found, the loop writes exactly what `SentWhile` describes. */
  lemma {:induction false} ReplayLoopFound(conn: Conn, events: seq<NotificationEvent>, lastEventId: string,
                                           ok: (Conn, NotificationEvent) -> bool)
    ensures ReplayLoop(conn, events, lastEventId, true, ok) == SentWhile(conn, events, ok)
    decreases |events|
  {
    if events != [] && Sends(conn, events[0], ok) {
      ReplayLoopFound(conn, events[1..], lastEventId, ok);
    }
  }

  /** The loop writes the events after the first occurrence of the id, up to the first refusal. */
  lemma {:induction false} ReplayLoopMeaning(conn: Conn, events: seq<NotificationEvent>, lastEventId: string,
                                             ok: (Conn, NotificationEvent) -> bool)
    ensures ReplayLoop(conn, events, lastEventId, false, ok) == SentWhile(conn, Since(events, lastEventId), ok)
    decreases |events|
  {
    if events != [] {
      if events[0].id == Some(lastEventId) {
        ReplayLoopFound(conn, events[1..], lastEventId, ok);
      } else {
        ReplayLoopMeaning(conn, events[1..], lastEventId, ok);
      }
    }
  }

  function ReplayPushes(recent: map<string, seq<NotificationEvent>>, user: string, conn: Conn,
                        lastEventId: string, ok: (Conn, NotificationEvent) -> bool): seq<Push>
  {
    PushTo(conn, SentWhile(conn, Since(BufferOf(recent, user), lastEventId), ok))
  }

  /**
   * `createConnection(user, lastEventId)`: the new connection is appended to the user's list,
   * and when a non-blank lastEventId is given the buffered events after it are replayed to it.
   */
  function Connect(st: RegistryState, user: string, conn: Conn, lastEventId: Option<string>,
                   ok: (Conn, NotificationEvent) -> bool): RegistryState
  {
    var st1 := st.(connections := st.connections[user := ConnsOf(st, user) + [conn]]);
    if lastEventId.Some? && !IsBlank(lastEventId.value) then
      st1.(pushed := st.pushed + ReplayPushes(st.recent, user, conn, lastEventId.value, ok))
    else st1
  }

  /**
   * Connecting keeps the user's other connections and every other user's, adds the new one at
   * the end, touches no buffer, and writes only to the new connection: nothing without a usable
   * lastEventId, otherwise the events after it in order, stopping at the first refusal.
   */
  lemma ConnectRules(st: RegistryState, user: string, conn: Conn, lastEventId: Option<string>,
                     ok: (Conn, NotificationEvent) -> bool)
    requires WellFormed(st.connections)
    requires forall u :: u in st.connections ==> conn !in st.connections[u]
    ensures var st' := Connect(st, user, conn, lastEventId, ok);
      && WellFormed(st'.connections)
      && ConnsOf(st', user) == ConnsOf(st, user) + [conn]
      && (forall v :: v != user ==> ConnsOf(st', v) == ConnsOf(st, v))
      && st'.recent == st.recent
  {
    var l := ConnsOf(st, user) + [conn];
    assert NoDup(l) by {
      if user in st.connections {
        assert conn !in st.connections[user];
      }
    }
    SetListKeeps(st.connections, user, l, 0);
  }

  /**
   * Connecting writes only to the new connection, and only events it accepts: nothing without a
   * usable lastEventId, otherwise the buffered events after it in order, stopping at the first
   * refusal.
   */
  lemma ConnectReplays(st: RegistryState, user: string, conn: Conn, lastEventId: Option<string>,
                       ok: (Conn, NotificationEvent) -> bool)
    ensures var st' := Connect(st, user, conn, lastEventId, ok);
      var added := st'.pushed[|st.pushed|..];
      && st.pushed <= st'.pushed
      && (lastEventId.None? || IsBlank(lastEventId.value) ==> added == [])
      && (forall i :: 0 <= i < |added| ==> added[i].conn == conn && Sends(conn, added[i].event, ok))
      && (lastEventId.Some? && !IsBlank(lastEventId.value) ==>
            added == PushTo(conn, SentWhile(conn, Since(BufferOf(st.recent, user), lastEventId.value), ok)))
  {
    var st' := Connect(st, user, conn, lastEventId, ok);
    if lastEventId.Some? && !IsBlank(lastEventId.value) {
      var replayed := SentWhile(conn, Since(BufferOf(st.recent, user), lastEventId.value), ok);
      PushToMeaning(conn, replayed);
      SentWhileMeaning(conn, Since(BufferOf(st.recent, user), lastEventId.value), ok);
      assert st'.pushed[|st.pushed|..] == PushTo(conn, replayed);
    } else {
      assert st'.pushed[|st.pushed|..] == [];
    }
  }

  /** Connecting raises the pod's connection count by one. */
  lemma ConnectActiveCount(st: RegistryState, user: string, conn: Conn, lastEventId: Option<string>,
                           ok: (Conn, NotificationEvent) -> bool)
    ensures TotalSize(Connect(st, user, conn, lastEventId, ok).connections) == TotalSize(st.connections) + 1
  {
    TotalSizeUpdate(st.connections, user, ConnsOf(st, user) + [conn]);
  }

  // ----- removal -----

  /**
   * `removeConnection(user, conn)`: the connection's first occurrence leaves the user's list, and
   * the user's entry goes when the list becomes empty.
   */
  function Disconnect(st: RegistryState, user: string, conn: Conn): RegistryState {
    if user !in st.connections then st
    else
      var l := RemoveFirst(st.connections[user], conn);
      st.(connections := SetList(st.connections, user, l))
  }

  /**
   * After a removal the connection is gone from the user's list and nothing else is: removing it
   * again, or removing an unknown connection, changes nothing.
   */
  lemma DisconnectRules(st: RegistryState, user: string, conn: Conn)
    requires WellFormed(st.connections)
    ensures var st' := Disconnect(st, user, conn);
      && WellFormed(st'.connections)
      && ConnsOf(st', user) == Without(ConnsOf(st, user), {conn})
      && (forall v :: v != user ==>
            (v in st'.connections <==> v in st.connections) && ConnsOf(st', v) == ConnsOf(st, v))
      && st'.recent == st.recent && st'.pushed == st.pushed
      && (conn !in ConnsOf(st, user) ==> st' == st)
      && Disconnect(st', user, conn) == st'
  {
    if user in st.connections {
      RemoveFirstNoDup(st.connections[user], conn);
      WithoutNoDup(st.connections[user], {conn});
      var l := Without(st.connections[user], {conn});
      if conn !in st.connections[user] {
        assert st.connections[user := l] == st.connections;
      }
      if l != [] {
        RemoveFirstNoDup(l, conn);
        WithoutUnchanged(l, {conn});
        assert st.connections[user := l][user := l] == st.connections[user := l];
      }
    }
  }

  /** A removal lowers the pod's connection count by one when the connection was there, else not at all. */
  lemma DisconnectActiveCount(st: RegistryState, user: string, conn: Conn)
    requires WellFormed(st.connections)
    ensures TotalSize(Disconnect(st, user, conn).connections)
         == TotalSize(st.connections) - (if conn in ConnsOf(st, user) then 1 else 0)
  {
    if user in st.connections {
      var l := RemoveFirst(st.connections[user], conn);
      TotalSizeRemove(st.connections, user);
      if l == [] {
        assert Disconnect(st, user, conn).connections == st.connections - {user};
      } else {
        TotalSizeUpdate(st.connections, user, l);
      }
    }
  }

  /** `removeStaleConnections`: every entry whose list is empty is dropped. */
  function Prune(connections: map<string, seq<Conn>>): map<string, seq<Conn>> {
    map u | u in connections && connections[u] != [] :: connections[u]
  }

  /** Pruning keeps every non-empty list and is the identity on a well-formed registry. */
  lemma PruneRules(connections: map<string, seq<Conn>>)
    ensures forall u :: u in Prune(connections) <==> u in connections && connections[u] != []
    ensures forall u :: u in Prune(connections) ==> Prune(connections)[u] == connections[u]
    ensures WellFormed(connections) ==> Prune(connections) == connections
    ensures Prune(Prune(connections)) == Prune(connections)
  {
  }
}
