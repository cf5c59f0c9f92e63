/**
 * RedisMessageConsumer: the receiving end of the bridge between pods. A message body is read
 * as an event and handed to this pod's sendToUserLocal for the user it names; anything that
 * cannot be read, or names no user, is dropped without an error escaping.
 */
module Consumer {
  import opened Wrappers
  import opened Strings
  import opened Events
  import opened RegistrySpec
  import opened Registry

  /**
   * Where `onMessage` sends a message body: the user and the event to hand to sendToUserLocal,
   * or nothing. The body is the JSON object the message text parses to, None when the text is
   * not a JSON object.
   */
  function Route(body: Option<Members>): (r: Option<(string, NotificationEvent)>)
    ensures r.Some? ==> body.Some? && Decode(body.value) == Some(r.value.1)
    ensures r.Some? ==> r.value.1.username == Some(r.value.0) && !IsBlank(r.value.0)
    ensures r.None? ==> body.None? || Decode(body.value).None? || !Addressed(Decode(body.value).value)
  {
    if body.None? then None
    else
      match Decode(body.value)
      case None => None
      case Some(notification) =>
        if notification.username.Some? && !IsBlank(notification.username.value)
        then Some((notification.username.value, notification))
        else None
  }

  /**
   * An event published by another pod arrives unchanged (up to the timestamp's whole seconds)
   * and goes to the user it names, exactly when that user is non-blank.
   */
  lemma RouteEncoded(e: NotificationEvent)
    ensures Addressed(e) ==> Route(Some(Encode(e))) == Some((e.username.value, OnWire(e)))
    ensures !Addressed(e) ==> Route(Some(Encode(e))) == None
    ensures Addressed(e) && WholeSeconds(e) ==> Route(Some(Encode(e))) == Some((e.username.value, e))
  {
    RoundTrip(e);
  }

  /** Members the event does not know do not change where a message goes. */
  lemma RouteIgnoresUnknown(members: Members)
    ensures Route(Some(members)) == Route(Some(KnownMembers(members)))
  {
    DecodeIgnoresUnknown(members);
  }

  /**
   * `onMessage(message)`: the routed event, if any, is handed to the pod's connection manager
   * once; a message that is dropped changes nothing.
   */
  method OnMessage(manager: ConnectionRegistry, body: Option<Members>, ok: (Conn, NotificationEvent) -> bool)
    requires manager.Valid()
    modifies manager
    ensures manager.Valid()
    ensures Route(body).None? ==> manager.State() == old(manager.State())
    ensures Route(body).Some? ==>
              manager.State() == Deliver(old(manager.State()), Route(body).value.0, Route(body).value.1, ok)
  {
    if body.None? {
      return;
    }
    var parsed := Decode(body.value);
    if parsed.None? {
      return;
    }
    var notification := parsed.value;
    var username := notification.username;
    if username.Some? && !IsBlank(username.value) {
      manager.SendToUserLocal(username.value, notification, ok);
    }
  }
}
