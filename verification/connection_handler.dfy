/** The socket connection handler: on every new socket it refuses
    `#authenticate` messages that present an older token than the one the
    server issued, and it re-issues the socket's auth token when the token is
    about to expire or its team list (`tms`) no longer matches the User row. */
module ConnectionHandler {
  import opened Common

  /** The decoded auth token: user id, expiry in seconds since the epoch, and
      the ids of the teams the user belongs to. */
  datatype AuthToken = AuthToken(sub: string, exp: int, tms: seq<string>)

  /** A message received on the socket: a plain object with an event name and
      its payload, or anything else. */
  datatype SocketMessage = ObjectMessage(event: string, data: string) | OtherMessage

  /** The close code and reason of `socket.disconnect`. */
  datatype Close = Close(code: int, reason: string)

  const NaughtyClose := Close(4501, "naughty nelly")

  /** `isTmsValid`: the token's team list matches the database's, element by
      element; unequal lengths never match. */
  method IsTmsValid(tmsFromDB: seq<string>, tmsFromToken: seq<string>) returns (valid: bool)
    ensures valid <==> |tmsFromDB| == |tmsFromToken| &&
                       forall i :: 0 <= i < |tmsFromDB| ==> tmsFromDB[i] == tmsFromToken[i]
    ensures valid <==> tmsFromDB == tmsFromToken
  {
    if |tmsFromDB| != |tmsFromToken| {
      return false;
    }
    var i := 0;
    while i < |tmsFromDB|
      invariant 0 <= i <= |tmsFromDB|
      invariant forall k :: 0 <= k < i ==> tmsFromDB[k] == tmsFromToken[k]
    {
      if tmsFromDB[i] != tmsFromToken[i] {
        return false;
      }
      i := i + 1;
    }
    return true;
  }

  /** `timeLeftOnToken`: milliseconds from `nowMs` to the token's expiry. */
  function TimeLeftMs(token: AuthToken, nowMs: int): (left: int)
    ensures left < 0 <==> nowMs > token.exp * 1000
  {
    token.exp * 1000 - nowMs
  }

  /** The token is re-issued when it expires within `refreshAfterMs` or its
      team list differs from the database's. */
  predicate ShouldReissue(token: AuthToken, tmsDB: seq<string>, nowMs: int, refreshAfterMs: int) {
    TimeLeftMs(token, nowMs) < refreshAfterMs || tmsDB != token.tms
  }

  /** Once a token is due for re-issue it stays due as time goes on, and a
      stale team list makes it due at any time. */
  lemma {:induction false} ReissueOnlyGetsMoreLikely(token: AuthToken, tmsDB: seq<string>, nowMs: int, laterMs: int, refreshAfterMs: int)
    requires nowMs <= laterMs
    ensures ShouldReissue(token, tmsDB, nowMs, refreshAfterMs) ==> ShouldReissue(token, tmsDB, laterMs, refreshAfterMs)
    ensures tmsDB != token.tms ==> ShouldReissue(token, tmsDB, nowMs, refreshAfterMs)
  {
    assert TimeLeftMs(token, laterMs) <= TimeLeftMs(token, nowMs);
  }

  /** The message listener's test: an `#authenticate` message whose token
      decodes to an expiry strictly earlier than the server token's. A token
      that does not decode, or has no expiry, never passes the test. */
  predicate PresentsOlderToken(message: SocketMessage, decodeExp: string -> Option<int>, serverExp: int) {
    message.ObjectMessage? && message.event == "#authenticate" &&
    decodeExp(message.data).Some? && decodeExp(message.data).value < serverExp
  }

  /** Presenting a token that expires no earlier than the server's own, in
      particular the server's own token, never closes the socket. */
  lemma FreshTokenAccepted(message: SocketMessage, decodeExp: string -> Option<int>, serverExp: int)
    requires message.ObjectMessage? && decodeExp(message.data).Some?
    requires decodeExp(message.data).value >= serverExp
    ensures !PresentsOlderToken(message, decodeExp, serverExp)
  {
  }

  /** The server side of one socket: its current auth token, every token set
      on it, in order, and every close it was asked for, in order. */
  class Socket {
    var authToken: AuthToken
    var issued: seq<AuthToken>
    var closes: seq<Close>

    constructor (token: AuthToken)
      ensures authToken == token && issued == [] && closes == []
    {
      authToken, issued, closes := token, [], [];
    }

    /** `socket.setAuthToken(token)`: the token becomes current and is sent to the client. */
    method SetAuthToken(token: AuthToken)
      modifies this
      ensures authToken == token && issued == old(issued) + [token] && closes == old(closes)
    {
      authToken := token;
      issued := issued + [token];
    }

    /** `socket.disconnect(code, reason)` */
    method Disconnect(close: Close)
      modifies this
      ensures closes == old(closes) + [close]
      ensures authToken == old(authToken) && issued == old(issued)
    {
      closes := closes + [close];
    }
  }

  /** The `message` listener: the socket is closed with 4501 exactly when the
      message presents an older token than the server's; the token itself is
      never changed here. */
  method HandleMessage(socket: Socket, message: SocketMessage, decodeExp: string -> Option<int>)
    modifies socket
    ensures socket.closes == old(socket.closes) +
              (if PresentsOlderToken(message, decodeExp, old(socket.authToken).exp) then [NaughtyClose] else [])
    ensures socket.authToken == old(socket.authToken) && socket.issued == old(socket.issued)
  {
    if message.ObjectMessage? && message.event == "#authenticate" {
      var decodedExp := decodeExp(message.data);
      var serverToken := socket.authToken;
      if decodedExp.Some? && decodedExp.value < serverToken.exp {
        socket.Disconnect(NaughtyClose);
      }
    }
  }

  /** The token check at connection time, given the User row's `tms` and the
      current time. The token is re-issued, with the database's team list and
      nothing else changed, exactly when `ShouldReissue` holds; either way the
      socket's token ends up carrying the database's team list. */
  method HandleConnection(socket: Socket, tmsDB: seq<string>, nowMs: int, refreshAfterMs: int)
    modifies socket
    ensures ShouldReissue(old(socket.authToken), tmsDB, nowMs, refreshAfterMs) ==>
              socket.authToken == old(socket.authToken).(tms := tmsDB) &&
              socket.issued == old(socket.issued) + [socket.authToken]
    ensures !ShouldReissue(old(socket.authToken), tmsDB, nowMs, refreshAfterMs) ==>
              socket.authToken == old(socket.authToken) && socket.issued == old(socket.issued)
    ensures socket.authToken.tms == tmsDB
    ensures socket.authToken.sub == old(socket.authToken).sub && socket.authToken.exp == old(socket.authToken).exp
    ensures socket.closes == old(socket.closes)
  {
    var authToken := socket.authToken;
    var timeLeftOnToken := authToken.exp * 1000 - nowMs;
    var tmsIsValid := IsTmsValid(tmsDB, authToken.tms);
    if timeLeftOnToken < refreshAfterMs || !tmsIsValid {
      authToken := authToken.(tms := tmsDB);
      socket.SetAuthToken(authToken);
    }
  }
}
