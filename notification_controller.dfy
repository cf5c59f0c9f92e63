/**
 * NotificationController's stream endpoint: which Last-Event-ID and which token it uses, when
 * it echoes the request's Origin back as the allowed origin, and what it does with the token.
 * The response headers themselves and the initial "connected" write are not modelled.
 */
module Controller {
  import opened Wrappers
  import opened Strings
  import opened Events
  import opened RegistrySpec
  import opened Service

  const BEARER_PREFIX := "Bearer "

  /** The two local development origins. */
  const LOCAL_REACT_ORIGIN := "http://localhost:3000"
  const LOCAL_VITE_ORIGIN := "http://localhost:5173"

  /** The allowed origins when none are configured: a comma-separated list. */
  const DEFAULT_ALLOWED_ORIGINS := LOCAL_REACT_ORIGIN + "," + LOCAL_VITE_ORIGIN

  /** The Last-Event-ID header whenever it is present, even empty; otherwise the query parameter. */
  function SelectLastEventId(header: Option<string>, param: Option<string>): (r: Option<string>)
    ensures header.Some? ==> r == header
    ensures header.None? ==> r == param
  {
    if header.Some? then header else param
  }

  /** An Authorization header of the form "Bearer <token>". */
  predicate IsBearer(authHeader: Option<string>) {
    authHeader.Some? && StartsWith(authHeader.value, BEARER_PREFIX)
  }

  /**
   * The token: what follows "Bearer " in the Authorization header when it has that form;
   * otherwise the token parameter, trimmed, when it is not blank; otherwise none.
   */
  function SelectToken(authHeader: Option<string>, tokenParam: Option<string>): (r: Option<string>)
    ensures IsBearer(authHeader) ==> r.Some? && BEARER_PREFIX + r.value == authHeader.value
    ensures !IsBearer(authHeader) ==> (r.Some? <==> tokenParam.Some? && !IsBlank(tokenParam.value))
    ensures !IsBearer(authHeader) && r.Some? ==> r.value == Trim(tokenParam.value) && r.value != []
  {
    if IsBearer(authHeader) then
      assert authHeader.value == BEARER_PREFIX + authHeader.value[|BEARER_PREFIX|..];
      Some(authHeader.value[|BEARER_PREFIX|..])
    else if tokenParam.Some? && !IsBlank(tokenParam.value) then Some(Trim(tokenParam.value))
    else None
  }

  /**
   * The value for Access-Control-Allow-Origin: the request's Origin when it equals one of the
   * comma-separated allowed origins exactly, and none otherwise.
   */
  function AllowedOrigin(origin: Option<string>, allowedOrigins: string): (r: Option<string>)
    ensures r.Some? ==> r == origin
    ensures r.Some? <==> origin.Some? && origin.value in JavaSplit(allowedOrigins, ',')
  {
    if origin.Some? && origin.value in JavaSplit(allowedOrigins, ',') then origin else None
  }

  /** With the default configuration exactly the two local development origins are echoed. */
  lemma DefaultAllowedOrigins(origin: string)
    ensures AllowedOrigin(Some(origin), DEFAULT_ALLOWED_ORIGINS).Some?
        <==> origin == LOCAL_REACT_ORIGIN || origin == LOCAL_VITE_ORIGIN
  {
    var parts := [LOCAL_REACT_ORIGIN, LOCAL_VITE_ORIGIN];
    JoinSmall(LOCAL_REACT_ORIGIN, LOCAL_VITE_ORIGIN, [], ',');
    forall p | p in parts ensures ',' !in p {
    }
    SplitJoin(parts, ',');
    assert SplitOn(DEFAULT_ALLOWED_ORIGINS, ',') == parts;
    assert ',' in DEFAULT_ALLOWED_ORIGINS by {
      assert DEFAULT_ALLOWED_ORIGINS[|LOCAL_REACT_ORIGIN|] == ',';
    }
    assert parts[1] != [];
    assert JavaSplit(DEFAULT_ALLOWED_ORIGINS, ',') == parts;
  }

  /** What the endpoint answers. */
  datatype StreamResponse = Unauthorized | ServerError | Streaming(conn: Conn)

  /**
   * `streamNotifications`: without a token the answer is 401 and no connection is attempted;
   * a token that resolves to no user makes connecting fail and the answer is 500; otherwise the
   * connection is made with the selected Last-Event-ID and the stream is returned.
   */
  method StreamNotifications(service: NotificationService, authHeader: Option<string>,
                             lastEventIdHeader: Option<string>, tokenParam: Option<string>,
                             lastEventIdParam: Option<string>, resolve: string -> Option<string>,
                             ok: (Conn, NotificationEvent) -> bool)
    returns (response: StreamResponse)
    requires service.Valid()
    modifies service.registry
    ensures service.Valid()
    ensures SelectToken(authHeader, tokenParam).None? ==>
              response == Unauthorized && service.registry.State() == old(service.registry.State())
    ensures SelectToken(authHeader, tokenParam).Some? && resolve(SelectToken(authHeader, tokenParam).value).None? ==>
              response == ServerError && service.registry.State() == old(service.registry.State())
    ensures SelectToken(authHeader, tokenParam).Some? && resolve(SelectToken(authHeader, tokenParam).value).Some? ==>
              && response.Streaming?
              && service.registry.State()
                 == Connect(old(service.registry.State()), resolve(SelectToken(authHeader, tokenParam).value).value,
                            response.conn, SelectLastEventId(lastEventIdHeader, lastEventIdParam), ok)
  {
    var lastEventId := SelectLastEventId(lastEventIdHeader, lastEventIdParam);
    var token := SelectToken(authHeader, tokenParam);
    if token.None? {
      return Unauthorized;
    }
    var connection := service.CreateConnection(token.value, lastEventId, resolve, ok);
    if connection.Failure? {
      return ServerError;
    }
    return Streaming(connection.value);
  }
}
