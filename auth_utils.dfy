/**
 * The client's checks on a stored JWT and user record (enhancedAuthUtils.ts): the token's
 * three-part shape, where the payload segment is, and expiry against a clock reading. Decoding
 * the payload is not modelled: its `exp` claim, when it has one, is an input.
 */
module AuthUtils {
  import opened Wrappers
  import opened Strings

  /** How long before expiry a token counts as expiring soon, in milliseconds. */
  const TOKEN_REFRESH_THRESHOLD: int := 300000

  /** JavaScript's `!token` for a string that may be null: null or empty. */
  predicate Missing(token: Option<string>) {
    token.None? || token.value == []
  }

  /** `validateTokenFormat(token)`: splitting on '.' gives exactly three non-empty parts. */
  function ValidateTokenFormat(token: Option<string>): (r: bool)
    ensures r ==> !Missing(token) && |SplitOn(token.value, '.')| == 3
    ensures r ==> token.value == Join(SplitOn(token.value, '.'), '.')
  {
    if Missing(token) then false
    else
      var parts := SplitOn(token.value, '.');
      JoinSplit(token.value, '.');
      |parts| == 3 && forall i :: 0 <= i < |parts| ==> |parts[i]| > 0
  }

  /** Three non-empty segments without dots, joined by dots, always pass the format check. */
  lemma TokenFormatAccepts(header: string, payload: string, signature: string)
    requires header != [] && payload != [] && signature != []
    requires '.' !in header && '.' !in payload && '.' !in signature
    ensures ValidateTokenFormat(Some(header + "." + payload + "." + signature))
  {
    var token := header + "." + payload + "." + signature;
    var parts := [header, payload, signature];
    assert SplitOn(token, '.') == parts by {
      forall p | p in parts ensures '.' !in p {
      }
      JoinSmall(header, payload, signature, '.');
      SplitJoin(parts, '.');
    }
    assert forall i :: 0 <= i < |parts| ==> |parts[i]| > 0;
  }

  /** A token passes the format check only if it is three non-empty dot-free segments joined by dots. */
  lemma TokenFormatShape(token: string)
    requires ValidateTokenFormat(Some(token))
    ensures var parts := SplitOn(token, '.');
      && token == parts[0] + "." + parts[1] + "." + parts[2]
      && parts[0] != [] && parts[1] != [] && parts[2] != []
      && '.' !in parts[0] && '.' !in parts[1] && '.' !in parts[2]
  {
    var parts := SplitOn(token, '.');
    assert parts[0] in parts && parts[1] in parts && parts[2] in parts;
    assert parts == [parts[0], parts[1], parts[2]];
    JoinSmall(parts[0], parts[1], parts[2], '.');
  }

  /**
   * The segment `parseJwtPayload` decodes: the second dot-separated part, or none when there is
   * no second part or it is empty.
   */
  function PayloadSegment(token: string): (r: Option<string>)
    ensures r.Some? <==> '.' in token && SplitOn(token, '.')[1] != []
    ensures r.Some? ==> r.value == SplitOn(token, '.')[1] && '.' !in r.value
  {
    var parts := SplitOn(token, '.');
    assert '.' in token <==> |parts| >= 2;
    if |parts| < 2 || parts[1] == [] then None
    else
      assert parts[1] in parts;
      Some(parts[1])
  }

  /**
   * The `exp` claim as the checks see it: none when the token has no payload segment, when the
   * payload has no `exp`, or when `exp` is 0 (JavaScript treats 0 as absent).
   */
  function Expiry(token: string, exp: Option<int>): Option<int> {
    if PayloadSegment(token).None? || exp.None? || exp.value == 0 then None else exp
  }

  /** `Math.floor(now / 1000)`: the clock reading in whole seconds. */
  function NowSeconds(nowMs: int): int {
    nowMs / 1000
  }

  /**
   * `isTokenExpired(token)` at `nowMs`: a missing token, or one without a usable `exp`, is
   * expired; otherwise it is expired once `exp` is not after the current whole second.
   */
  function IsTokenExpired(token: Option<string>, exp: Option<int>, nowMs: int): (r: bool)
    ensures Missing(token) ==> r
    ensures !Missing(token) && Expiry(token.value, exp).None? ==> r
  {
    if Missing(token) then true
    else
      match Expiry(token.value, exp)
      case None => true
      case Some(e) => e <= NowSeconds(nowMs)
  }

  /**
   * `isTokenExpiringSoon(token, threshold)` at `nowMs`: false for a missing token or one without
   * a usable `exp`; otherwise true when the time left, in milliseconds of whole seconds, is
   * positive and at most the threshold.
   */
  function IsTokenExpiringSoon(token: Option<string>, exp: Option<int>, nowMs: int, thresholdMs: int): (r: bool)
    ensures Missing(token) ==> !r
    ensures !Missing(token) && Expiry(token.value, exp).None? ==> !r
  {
    if Missing(token) then false
    else
      match Expiry(token.value, exp)
      case None => false
      case Some(e) =>
        var timeUntilExpiry := (e - NowSeconds(nowMs)) * 1000;
        timeUntilExpiry <= thresholdMs && timeUntilExpiry > 0
  }

  /**
   * With a usable `exp`, a token is expired exactly when its expiry instant, in milliseconds,
   * is not after the clock reading.
   */
  lemma ExpiredIffPast(token: string, exp: Option<int>, nowMs: int)
    requires token != [] && Expiry(token, exp).Some?
    ensures IsTokenExpired(Some(token), exp, nowMs) <==> exp.value * 1000 <= nowMs
  {
    var e, s := exp.value, NowSeconds(nowMs);
    assert s * 1000 <= nowMs < s * 1000 + 1000;
    if e <= s {
      assert e * 1000 <= s * 1000;
    } else {
      assert e * 1000 >= s * 1000 + 1000;
    }
  }

  /** For the same clock reading a token is never both expired and expiring soon. */
  lemma NotExpiredAndExpiringSoon(token: Option<string>, exp: Option<int>, nowMs: int, thresholdMs: int)
    ensures !(IsTokenExpired(token, exp, nowMs) && IsTokenExpiringSoon(token, exp, nowMs, thresholdMs))
  {
  }

  /**
   * With the default threshold, a token with a usable `exp` is expiring soon exactly when it
   * expires within the next 300 whole seconds.
   */
  lemma ExpiringSoonWindow(token: string, exp: Option<int>, nowMs: int)
    requires token != [] && Expiry(token, exp).Some?
    ensures IsTokenExpiringSoon(Some(token), exp, nowMs, TOKEN_REFRESH_THRESHOLD)
        <==> 0 < exp.value - NowSeconds(nowMs) <= 300
  {
  }

  /** The shape a user record is checked against; fields are any JavaScript value. */
  datatype JsValue = Undefined | Null | Number | Str(text: string) | OtherValue

  datatype UserRecord = UserRecord(id: JsValue, username: JsValue, email: JsValue)

  /** `validateUserData(user)`: a numeric id and a non-empty username and email. */
  function ValidateUserData(user: Option<UserRecord>): (r: bool)
    ensures r ==> user.Some? && user.value.id == Number
    ensures r <==> user.Some? && user.value.id.Number? && user.value.username.Str? && user.value.username.text != []
                   && user.value.email.Str? && user.value.email.text != []
  {
    match user
    case None => false
    case Some(u) =>
      u.id.Number? && u.username.Str? && |u.username.text| > 0 && u.email.Str? && |u.email.text| > 0
  }
}
