/**
 * NotificationEvent: the record every notification travels in, its factories, and its JSON
 * shape on the broker and on the push stream (absent fields are left out, unknown keys are
 * ignored when reading, the timestamp is written with second precision).
 */
module Events {
  import opened Wrappers
  import opened Strings

  /** A LocalDateTime, reduced to the second it denotes and its sub-second part. */
  datatype LocalDateTime = LocalDateTime(epochSecond: int, nano: nat)

  /** `LocalDateTime.withNano(0)`. */
  function WithNanoZero(t: LocalDateTime): LocalDateTime {
    t.(nano := 0)
  }

  /** The nine nullable properties of the Java bean, in declaration order. */
  datatype NotificationEvent = NotificationEvent(
    id: Option<string>,
    eventType: Option<string>,
    message: Option<string>,
    taskId: Option<string>,
    taskTitle: Option<string>,
    username: Option<string>,
    timestamp: Option<LocalDateTime>,
    creatorUsername: Option<string>,
    assignedUsername: Option<string>)

  /** `new NotificationEvent()`: every property null. */
  const EmptyEvent: NotificationEvent :=
    NotificationEvent(None, None, None, None, None, None, None, None, None)

  /**
   * `NotificationEvent.create(type, message, username)`. The generated id and the clock reading
   * are parameters; the timestamp is truncated to whole seconds.
   */
  function Create(id: string, eventType: Option<string>, message: Option<string>,
                  username: Option<string>, now: LocalDateTime): (e: NotificationEvent)
    ensures e.id == Some(id) && e.eventType == eventType && e.message == message
    ensures e.username == username
    ensures e.timestamp.Some? && e.timestamp.value.epochSecond == now.epochSecond
    ensures e.timestamp.value.nano == 0
    ensures e.taskId.None? && e.taskTitle.None?
    ensures e.creatorUsername.None? && e.assignedUsername.None?
  {
    EmptyEvent.(id := Some(id), eventType := eventType, message := message,
                username := username, timestamp := Some(WithNanoZero(now)))
  }

  /** The five-argument `createTaskNotification`: `create` plus the task reference. */
  function CreateTaskNotification(id: string, eventType: Option<string>, message: Option<string>,
                                  username: Option<string>, taskId: Option<string>,
                                  taskTitle: Option<string>, now: LocalDateTime): (e: NotificationEvent)
    ensures e == Create(id, eventType, message, username, now).(taskId := taskId, taskTitle := taskTitle)
    ensures e.creatorUsername.None? && e.assignedUsername.None?
  {
    var event := Create(id, eventType, message, username, now);
    event.(taskId := taskId, taskTitle := taskTitle)
  }

  /** The seven-argument `createTaskNotification`: the five-argument one plus creator and assignee. */
  function CreateFullTaskNotification(id: string, eventType: Option<string>, message: Option<string>,
                                      username: Option<string>, taskId: Option<string>,
                                      taskTitle: Option<string>, creatorUsername: Option<string>,
                                      assignedUsername: Option<string>, now: LocalDateTime): (e: NotificationEvent)
    ensures e.creatorUsername == creatorUsername && e.assignedUsername == assignedUsername
    ensures var short := CreateTaskNotification(id, eventType, message, username, taskId, taskTitle, now);
      e.(creatorUsername := None, assignedUsername := None) == short
  {
    var event := CreateTaskNotification(id, eventType, message, username, taskId, taskTitle, now);
    event.(creatorUsername := creatorUsername, assignedUsername := assignedUsername)
  }

  // ----- the JSON shape -----

  /** A JSON value as Jackson reads it. Numbers are integral here (no floating point). */
  datatype Json =
    | JNull
    | JBool(b: bool)
    | JNumber(n: int)
    | JString(s: string)
    | JArray(items: seq<Json>)
    | JObject(members: seq<(string, Json)>)

  type Members = seq<(string, Json)>

  /** The property names, in declaration order, as they appear on the wire. */
  const Keys: seq<string> :=
    ["id", "type", "message", "taskId", "taskTitle", "username", "timestamp",
     "creatorUsername", "assignedUsername"]

  /**
   * The text written for a timestamp. The `yyyy-MM-dd'T'HH:mm:ss` pattern carries exactly the
   * second and nothing finer; the model writes that second in decimal.
   */
  function TimestampText(t: LocalDateTime): string {
    LongToString(t.epochSecond)
  }

  function TextJson(v: Option<string>): Option<Json> {
    if v.Some? then Some(JString(v.value)) else None
  }

  function TimestampJson(v: Option<LocalDateTime>): Option<Json> {
    if v.Some? then Some(JString(TimestampText(v.value))) else None
  }

  /** Every property paired with its JSON value, None where the property is null. */
  function Fields(e: NotificationEvent): (fs: seq<(string, Option<Json>)>)
    ensures |fs| == |Keys| && forall i :: 0 <= i < |fs| ==> fs[i].0 == Keys[i]
  {
    [("id", TextJson(e.id)), ("type", TextJson(e.eventType)), ("message", TextJson(e.message)),
     ("taskId", TextJson(e.taskId)), ("taskTitle", TextJson(e.taskTitle)),
     ("username", TextJson(e.username)), ("timestamp", TimestampJson(e.timestamp)),
     ("creatorUsername", TextJson(e.creatorUsername)),
     ("assignedUsername", TextJson(e.assignedUsername))]
  }

  /** `@JsonInclude(NON_NULL)`: a member for each non-null property, in order. */
  function Present(fs: seq<(string, Option<Json>)>): (m: Members)
    ensures |m| <= |fs|
    ensures forall i :: 0 <= i < |m| ==> m[i].1 != JNull ==> exists j :: 0 <= j < |fs| && fs[j].0 == m[i].0
  {
    if fs == [] then []
    else
      var last := fs[|fs| - 1];
      var init := Present(fs[..|fs| - 1]);
      if last.1.Some? then init + [(last.0, last.1.value)] else init
  }

  /** Jackson's writer: one member per non-null property. */
  function Encode(e: NotificationEvent): Members {
    Present(Fields(e))
  }

  /** The value bound to a key; when a key repeats, the later member wins. */
  function Lookup(members: Members, key: string): (r: Option<Json>)
    ensures r.Some? ==> (key, r.value) in members
    ensures r.None? <==> forall i :: 0 <= i < |members| ==> members[i].0 != key
  {
    if members == [] then None
    else if members[|members| - 1].0 == key then Some(members[|members| - 1].1)
    else Lookup(members[..|members| - 1], key)
  }

  /**
   * A String property: missing or null reads as null, a string as itself, a number or a
   * boolean as its text; an array or an object is an error (the outer None).
   */
  function DecodeText(v: Option<Json>): Option<Option<string>> {
    match v
    case None => Some(None)
    case Some(JNull) => Some(None)
    case Some(JString(s)) => Some(Some(s))
    case Some(JNumber(n)) => Some(Some(LongToString(n)))
    case Some(JBool(b)) => Some(Some(if b then "true" else "false"))
    case Some(_) => None
  }

  /** The timestamp property: missing or null reads as null, anything but a valid text is an error. */
  function DecodeTimestamp(v: Option<Json>): Option<Option<LocalDateTime>> {
    match v
    case None => Some(None)
    case Some(JNull) => Some(None)
    case Some(JString(s)) =>
      (match ParseLong(s)
       case Some(sec) => Some(Some(LocalDateTime(sec, 0)))
       case None => None)
    case Some(_) => None
  }

  /**
   * Jackson's reader under `@JsonIgnoreProperties(ignoreUnknown = true)`: the known keys are
   * read, every other key is skipped, and a known key of the wrong shape makes the read fail.
   */
  function Decode(members: Members): Option<NotificationEvent> {
    DecodeValues(KnownValues(members))
  }

  /** The value under each known key, in the order of `Keys`. */
  function KnownValues(members: Members): (vs: seq<Option<Json>>)
    ensures |vs| == |Keys|
  {
    [Lookup(members, Keys[0]), Lookup(members, Keys[1]), Lookup(members, Keys[2]),
     Lookup(members, Keys[3]), Lookup(members, Keys[4]), Lookup(members, Keys[5]),
     Lookup(members, Keys[6]), Lookup(members, Keys[7]), Lookup(members, Keys[8])]
  }

  /** Reads each property from its value; the first value of the wrong shape fails the read. */
  function DecodeValues(vs: seq<Option<Json>>): Option<NotificationEvent>
    requires |vs| == |Keys|
  {
    var id :- DecodeText(vs[0]);
    var eventType :- DecodeText(vs[1]);
    var message :- DecodeText(vs[2]);
    var taskId :- DecodeText(vs[3]);
    var taskTitle :- DecodeText(vs[4]);
    var username :- DecodeText(vs[5]);
    var timestamp :- DecodeTimestamp(vs[6]);
    var creatorUsername :- DecodeText(vs[7]);
    var assignedUsername :- DecodeText(vs[8]);
    Some(NotificationEvent(id, eventType, message, taskId, taskTitle, username, timestamp,
                           creatorUsername, assignedUsername))
  }

  /** What survives the trip through the wire: every property, with the timestamp cut to seconds. */
  function OnWire(e: NotificationEvent): NotificationEvent {
    e.(timestamp := if e.timestamp.Some? then Some(WithNanoZero(e.timestamp.value)) else None)
  }

  /** Whole-second timestamps, which is what `create` always produces. */
  predicate WholeSeconds(e: NotificationEvent) {
    e.timestamp.Some? ==> e.timestamp.value.nano == 0
  }

  // ----- lemmas about the wire shape -----

  lemma KeysDistinct()
    ensures forall i, j :: 0 <= i < j < |Keys| ==> Keys[i] != Keys[j]
  {
    forall i, j | 0 <= i < j < |Keys| ensures Keys[i] != Keys[j] {
      assert |Keys[i]| != |Keys[j]| || Keys[i][1] != Keys[j][1];
    }
  }

  /** With no later entry of the same key, looking a key up in the written members finds its value. */
  lemma {:induction false} LookupPresent(fs: seq<(string, Option<Json>)>, i: nat)
    requires i < |fs|
    requires forall j :: 0 <= j < |fs| && j != i ==> fs[j].0 != fs[i].0
    ensures Lookup(Present(fs), fs[i].0) == fs[i].1
  {
    var init := fs[..|fs| - 1];
    var last := fs[|fs| - 1];
    if i == |fs| - 1 {
      if last.1.None? {
        LookupPresentAbsent(init, last.0);
      }
    } else {
      assert init[i] == fs[i];
      LookupPresent(init, i);
      if last.1.Some? {
        var m := Present(init) + [(last.0, last.1.value)];
        assert m[..|m| - 1] == Present(init);
      }
    }
  }

  /** A key that no entry carries is not among the written members. */
  lemma {:induction false} LookupPresentAbsent(fs: seq<(string, Option<Json>)>, key: string)
    requires forall j :: 0 <= j < |fs| ==> fs[j].0 != key
    ensures Lookup(Present(fs), key) == None
  {
    if fs != [] {
      var init := fs[..|fs| - 1];
      var last := fs[|fs| - 1];
      LookupPresentAbsent(init, key);
      if last.1.Some? {
        var m := Present(init) + [(last.0, last.1.value)];
        assert m[..|m| - 1] == Present(init);
      }
    }
  }

  /** Reading a property from the encoding gives its JSON value, or nothing when it is null. */
  lemma EncodedLookup(e: NotificationEvent, i: nat)
    requires i < |Keys|
    ensures Lookup(Encode(e), Keys[i]) == Fields(e)[i].1
  {
    KeysDistinct();
    LookupPresent(Fields(e), i);
  }

  /** Encoding leaves out absent properties: no member is null and every key is a known one. */
  lemma EncodeOmitsNulls(e: NotificationEvent)
    ensures forall i :: 0 <= i < |Encode(e)| ==> Encode(e)[i].1 != JNull && Encode(e)[i].0 in Keys
  {
    PresentNonNull(Fields(e));
  }

  lemma {:induction false} PresentNonNull(fs: seq<(string, Option<Json>)>)
    requires forall j :: 0 <= j < |fs| ==> fs[j].1 != Some(JNull)
    ensures forall i :: 0 <= i < |Present(fs)| ==>
      Present(fs)[i].1 != JNull && exists j :: 0 <= j < |fs| && fs[j].0 == Present(fs)[i].0
  {
    if fs != [] {
      var init := fs[..|fs| - 1];
      PresentNonNull(init);
      var m := Present(fs);
      forall i | 0 <= i < |m|
        ensures m[i].1 != JNull && exists j :: 0 <= j < |fs| && fs[j].0 == m[i].0
      {
        if i < |Present(init)| {
          var j :| 0 <= j < |init| && init[j].0 == m[i].0;
          assert fs[j] == init[j];
        } else {
          assert fs[|fs| - 1].0 == m[i].0;
        }
      }
    }
  }

  lemma DecodeTextJson(v: Option<string>)
    ensures DecodeText(TextJson(v)) == Some(v)
  {
  }

  /** A payload whose nine properties each read as those of `e` reads as `e`. */
  lemma DecodeFromFields(m: Members, e: NotificationEvent)
    requires DecodeText(Lookup(m, Keys[0])) == Some(e.id)
    requires DecodeText(Lookup(m, Keys[1])) == Some(e.eventType)
    requires DecodeText(Lookup(m, Keys[2])) == Some(e.message)
    requires DecodeText(Lookup(m, Keys[3])) == Some(e.taskId)
    requires DecodeText(Lookup(m, Keys[4])) == Some(e.taskTitle)
    requires DecodeText(Lookup(m, Keys[5])) == Some(e.username)
    requires DecodeTimestamp(Lookup(m, Keys[6])) == Some(e.timestamp)
    requires DecodeText(Lookup(m, Keys[7])) == Some(e.creatorUsername)
    requires DecodeText(Lookup(m, Keys[8])) == Some(e.assignedUsername)
    ensures Decode(m) == Some(e)
  {
  }

  /** Reading back what was written gives every property back, the timestamp cut to seconds. */
  lemma RoundTrip(e: NotificationEvent)
    ensures Decode(Encode(e)) == Some(OnWire(e))
  {
    var m := Encode(e);
    var fs := Fields(e);
    EncodedLookup(e, 0);
    EncodedLookup(e, 1);
    EncodedLookup(e, 2);
    EncodedLookup(e, 3);
    EncodedLookup(e, 4);
    EncodedLookup(e, 5);
    EncodedLookup(e, 6);
    EncodedLookup(e, 7);
    EncodedLookup(e, 8);
    DecodeTextJson(e.id);
    DecodeTextJson(e.eventType);
    DecodeTextJson(e.message);
    DecodeTextJson(e.taskId);
    DecodeTextJson(e.taskTitle);
    DecodeTextJson(e.username);
    DecodeTextJson(e.creatorUsername);
    DecodeTextJson(e.assignedUsername);
    if e.timestamp.Some? {
      LongRoundTrip(e.timestamp.value.epochSecond);
    }
    assert DecodeTimestamp(Lookup(m, Keys[6])) == Some(OnWire(e).timestamp);
    DecodeFromFields(m, OnWire(e));
  }

  /** For whole-second timestamps, as `create` makes them, the round trip is exact. */
  lemma RoundTripExact(e: NotificationEvent)
    requires WholeSeconds(e)
    ensures Decode(Encode(e)) == Some(e)
  {
    RoundTrip(e);
  }

  /** The members whose key is a known property, in order. */
  function KnownMembers(members: Members): (r: Members)
    ensures forall i :: 0 <= i < |r| ==> r[i].0 in Keys
  {
    if members == [] then []
    else if members[|members| - 1].0 in Keys
    then KnownMembers(members[..|members| - 1]) + [members[|members| - 1]]
    else KnownMembers(members[..|members| - 1])
  }

  lemma {:induction false} LookupKnownMembers(members: Members, key: string)
    requires key in Keys
    ensures Lookup(KnownMembers(members), key) == Lookup(members, key)
  {
    if members != [] {
      var init := members[..|members| - 1];
      var last := members[|members| - 1];
      LookupKnownMembers(init, key);
      if last.0 in Keys {
        var r := KnownMembers(init) + [last];
        assert r[..|r| - 1] == KnownMembers(init);
      }
    }
  }

  /** Two payloads that agree on every known key read the same. */
  lemma DecodeSameKnown(a: Members, b: Members)
    requires forall i :: 0 <= i < |Keys| ==> Lookup(a, Keys[i]) == Lookup(b, Keys[i])
    ensures Decode(a) == Decode(b)
  {
    assert KnownValues(a) == KnownValues(b) by {
      assert Lookup(a, Keys[0]) == Lookup(b, Keys[0]);
      assert Lookup(a, Keys[1]) == Lookup(b, Keys[1]);
      assert Lookup(a, Keys[2]) == Lookup(b, Keys[2]);
      assert Lookup(a, Keys[3]) == Lookup(b, Keys[3]);
      assert Lookup(a, Keys[4]) == Lookup(b, Keys[4]);
      assert Lookup(a, Keys[5]) == Lookup(b, Keys[5]);
      assert Lookup(a, Keys[6]) == Lookup(b, Keys[6]);
      assert Lookup(a, Keys[7]) == Lookup(b, Keys[7]);
      assert Lookup(a, Keys[8]) == Lookup(b, Keys[8]);
    }
  }

  /** Unknown keys are ignored: reading a payload equals reading only its known members. */
  lemma DecodeIgnoresUnknown(members: Members)
    ensures Decode(members) == Decode(KnownMembers(members))
  {
    forall i | 0 <= i < |Keys| ensures Lookup(members, Keys[i]) == Lookup(KnownMembers(members), Keys[i]) {
      LookupKnownMembers(members, Keys[i]);
    }
    DecodeSameKnown(members, KnownMembers(members));
  }

  /** In particular, appending a member with an unknown key changes nothing. */
  lemma DecodeIgnoresExtraMember(members: Members, key: string, value: Json)
    requires key !in Keys
    ensures Decode(members + [(key, value)]) == Decode(members)
  {
    var m := members + [(key, value)];
    assert m[..|m| - 1] == members;
    DecodeSameKnown(m, members);
  }

  /** Every event made by `create` survives the wire unchanged. */
  lemma CreatedEventRoundTrip(id: string, eventType: Option<string>, message: Option<string>,
                              username: Option<string>, now: LocalDateTime)
    ensures var e := Create(id, eventType, message, username, now);
      Decode(Encode(e)) == Some(e)
  {
    RoundTripExact(Create(id, eventType, message, username, now));
  }
}
