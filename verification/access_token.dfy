/** The `freshAtlassianAccessToken` batch resolver: keys `{userId, teamId}`;
    for each key on its own, find the user's Atlassian auth for the team, keep
    its access token while it has not expired, otherwise exchange the refresh
    token for a new access token and write that back to the auth row. */
module AtlassianAccessToken {
  import opened Common

  /** A row of the AtlassianAuth table. `updatedAt` is in milliseconds. */
  datatype AtlassianAuth = AtlassianAuth(
    userId: string,
    teamId: string,
    accessToken: Option<string>,
    refreshToken: Option<string>,
    updatedAt: int)

  datatype AccessTokenKey = AccessTokenKey(userId: string, teamId: string)

  /** JavaScript truthiness of an optional string: present and not empty. */
  predicate Truthy(s: Option<string>) {
    s.Some? && s.value != ""
  }

  /** `atlassianAuthByUserId.load(userId)`: the user's auth rows, in table order. */
  function AuthsOfUser(rows: seq<AtlassianAuth>, userId: string): (auths: seq<AtlassianAuth>)
    ensures forall a :: a in auths <==> a in rows && a.userId == userId
  {
    if rows == [] then []
    else
      assert rows == [rows[0]] + rows[1..];
      (if rows[0].userId == userId then [rows[0]] else []) + AuthsOfUser(rows[1..], userId)
  }

  /** `userAuths.find((auth) => auth.teamId === teamId)` */
  function FindTeamAuth(auths: seq<AtlassianAuth>, teamId: string): (found: Option<AtlassianAuth>)
    ensures found.Some? ==> found.value in auths && found.value.teamId == teamId
    ensures found.None? <==> forall a :: a in auths ==> a.teamId != teamId
    ensures found.Some? ==> exists k :: 0 <= k < |auths| && auths[k] == found.value &&
                                      NoTeamAuth(auths[..k], teamId)
  {
    if auths == [] then None
    else if auths[0].teamId == teamId then
      assert NoTeamAuth(auths[..0], teamId);
      Some(auths[0])
    else
      assert auths == [auths[0]] + auths[1..];
      var found := FindTeamAuth(auths[1..], teamId);
      FirstTeamAuthShift(auths, teamId, found);
      found
  }

  /** A first match in the tail is a first match in the whole list when the
      head is of another team. */
  lemma FirstTeamAuthShift(auths: seq<AtlassianAuth>, teamId: string, found: Option<AtlassianAuth>)
    requires auths != [] && auths[0].teamId != teamId
    requires found.Some? ==> exists k :: 0 <= k < |auths| - 1 && auths[1..][k] == found.value &&
                                         NoTeamAuth(auths[1..][..k], teamId)
    ensures found.Some? ==> exists k :: 0 <= k < |auths| && auths[k] == found.value &&
                                        NoTeamAuth(auths[..k], teamId)
  {
    if found.Some? {
      var k :| 0 <= k < |auths| - 1 && auths[1..][k] == found.value && NoTeamAuth(auths[1..][..k], teamId);
      assert auths[..k + 1] == [auths[0]] + auths[1..][..k];
      assert auths[k + 1] == found.value;
    }
  }

  /** No row of `auths` belongs to the team. */
  predicate NoTeamAuth(auths: seq<AtlassianAuth>, teamId: string) {
    forall a :: a in auths ==> a.teamId != teamId
  }

  /** The access token can still be used at `nowMs`: it is present, decodes to
      an expiry `exp` (in seconds), and the current second is not past `exp`,
      which is the test `exp >= Math.floor(now / 1000)`. */
  function Unexpired(accessToken: Option<string>, decodeExp: string -> Option<int>, nowMs: int): (r: bool)
    ensures r <==> Truthy(accessToken) && decodeExp(accessToken.value).Some? &&
                   decodeExp(accessToken.value).value >= nowMs / 1000
  {
    if Truthy(accessToken) && decodeExp(accessToken.value).Some? then
      var exp := decodeExp(accessToken.value).value;
      FloorSecondsBound(exp, nowMs);
      nowMs < (exp + 1) * 1000
    else false
  }

  /** `exp >= Math.floor(now / 1000)` reads, in milliseconds, as "now is before
      the end of the second `exp`" (`/` by a positive divisor is floor division). */
  lemma FloorSecondsBound(exp: int, nowMs: int)
    ensures exp >= nowMs / 1000 <==> nowMs < (exp + 1) * 1000
  {
    var q, m := nowMs / 1000, nowMs % 1000;
    assert nowMs == 1000 * q + m && 0 <= m < 1000;
  }

  /** What the resolver does for one key. */
  datatype TokenStep = NoCredential | KeepExisting(token: string) | Refresh(refreshToken: string)

  /** The decision: no usable credential, keep the stored access token, or refresh. */
  function DecideToken(auths: seq<AtlassianAuth>, teamId: string, decodeExp: string -> Option<int>, nowMs: int)
    : (step: TokenStep)
    ensures var found := FindTeamAuth(auths, teamId);
            (step.NoCredential? <==> found.None? || !Truthy(found.value.refreshToken))
    ensures var found := FindTeamAuth(auths, teamId);
            found.Some? && Truthy(found.value.refreshToken) ==>
              (step.KeepExisting? <==> Unexpired(found.value.accessToken, decodeExp, nowMs))
    ensures var found := FindTeamAuth(auths, teamId);
            step.KeepExisting? ==> found.Some? && found.value.accessToken == Some(step.token)
    ensures var found := FindTeamAuth(auths, teamId);
            step.Refresh? ==> found.Some? && found.value.refreshToken == Some(step.refreshToken) && step.refreshToken != ""
  {
    var found := FindTeamAuth(auths, teamId);
    if found.None? || !Truthy(found.value.refreshToken) then NoCredential
    else
      var auth := found.value;
      if Truthy(auth.accessToken) && decodeExp(auth.accessToken.value).Some? then
        var exp := decodeExp(auth.accessToken.value).value;
        FloorSecondsBound(exp, nowMs);
        if exp >= nowMs / 1000 then KeepExisting(auth.accessToken.value)
        else Refresh(auth.refreshToken.value)
      else
        Refresh(auth.refreshToken.value)
  }

  /** Expiry only moves one way: a token kept at some moment would also have
      been kept at every earlier moment. */
  lemma KeptTokenMonotone(auths: seq<AtlassianAuth>, teamId: string, decodeExp: string -> Option<int>, nowMs: int, earlierMs: int)
    requires earlierMs <= nowMs
    requires DecideToken(auths, teamId, decodeExp, nowMs).KeepExisting?
    ensures DecideToken(auths, teamId, decodeExp, earlierMs) == DecideToken(auths, teamId, decodeExp, nowMs)
  {
  }

  /** Entry of one key, decided on the auth rows as they were when the batch started. */
  function KeyOutcome(
    snapshot: seq<AtlassianAuth>, key: AccessTokenKey,
    decodeExp: string -> Option<int>, refresh: string -> Result<string>, nowMs: int)
    : Settled<Option<string>>
  {
    match DecideToken(AuthsOfUser(snapshot, key.userId), key.teamId, decodeExp, nowMs)
    case NoCredential => Fulfilled(None)
    case KeepExisting(token) => Fulfilled(Some(token))
    case Refresh(refreshToken) =>
      match refresh(refreshToken)
      case Ok(accessToken) => Fulfilled(Some(accessToken))
      case Err(e) => Rejected(e)
  }

  /** The token written back for a key, if that key was refreshed successfully. */
  function WrittenToken(
    snapshot: seq<AtlassianAuth>, key: AccessTokenKey,
    decodeExp: string -> Option<int>, refresh: string -> Result<string>, nowMs: int)
    : Option<string>
  {
    match DecideToken(AuthsOfUser(snapshot, key.userId), key.teamId, decodeExp, nowMs)
    case Refresh(refreshToken) =>
      (match refresh(refreshToken)
       case Ok(accessToken) => Some(accessToken)
       case Err(_) => None)
    case _ => None
  }

  /** Each key's entry is one of: no token (exactly when there is no credential
      for its team), the stored token (exactly when it is unexpired), or the
      outcome of one refresh; a refresh that fails rejects only that entry. */
  lemma KeyOutcomeCases(
    snapshot: seq<AtlassianAuth>, key: AccessTokenKey,
    decodeExp: string -> Option<int>, refresh: string -> Result<string>, nowMs: int)
    ensures var found := FindTeamAuth(AuthsOfUser(snapshot, key.userId), key.teamId);
            var out := KeyOutcome(snapshot, key, decodeExp, refresh, nowMs);
            && (out == Fulfilled(None) <==> found.None? || !Truthy(found.value.refreshToken))
            && (found.Some? && Truthy(found.value.refreshToken) && Unexpired(found.value.accessToken, decodeExp, nowMs) ==>
                  out == Fulfilled(found.value.accessToken) &&
                  WrittenToken(snapshot, key, decodeExp, refresh, nowMs) == None)
            && (found.Some? && Truthy(found.value.refreshToken) && !Unexpired(found.value.accessToken, decodeExp, nowMs) ==>
                  match refresh(found.value.refreshToken.value)
                  case Ok(token) =>
                    out == Fulfilled(Some(token)) && WrittenToken(snapshot, key, decodeExp, refresh, nowMs) == Some(token)
                  case Err(e) =>
                    out == Rejected(e) && WrittenToken(snapshot, key, decodeExp, refresh, nowMs) == None)
  {
    var step := DecideToken(AuthsOfUser(snapshot, key.userId), key.teamId, decodeExp, nowMs);
    if step.Refresh? {
      match refresh(step.refreshToken)
      case Ok(_) =>
      case Err(_) =>
    }
  }

  /** `.getAll(userId, {index: 'userId'}).filter({teamId}).update({accessToken, updatedAt: now})` */
  function WithAccessToken(rows: seq<AtlassianAuth>, userId: string, teamId: string, token: string, nowMs: int)
    : (r: seq<AtlassianAuth>)
    ensures |r| == |rows|
  {
    seq(|rows|, i requires 0 <= i < |rows| =>
      if rows[i].userId == userId && rows[i].teamId == teamId
      then rows[i].(accessToken := Some(token), updatedAt := nowMs)
      else rows[i])
  }

  /** The key whose write reaches this row: same user, same team. */
  predicate Addresses(key: AccessTokenKey, row: AtlassianAuth) {
    key.userId == row.userId && key.teamId == row.teamId
  }

  /** The auth rows after the writes of a batch's keys, applied in key order. */
  function ApplyRefreshes(
    snapshot: seq<AtlassianAuth>, keys: seq<AccessTokenKey>,
    decodeExp: string -> Option<int>, refresh: string -> Result<string>, nowMs: int)
    : (rows: seq<AtlassianAuth>)
    ensures |rows| == |snapshot|
    ensures forall j :: 0 <= j < |rows| ==>
              rows[j].userId == snapshot[j].userId && rows[j].teamId == snapshot[j].teamId &&
              rows[j].refreshToken == snapshot[j].refreshToken
    decreases |keys|
  {
    if keys == [] then snapshot
    else
      var last := keys[|keys| - 1];
      ApplyWrite(ApplyRefreshes(snapshot, keys[..|keys| - 1], decodeExp, refresh, nowMs),
                 last, WrittenToken(snapshot, last, decodeExp, refresh, nowMs), nowMs)
  }

  /** The rows after one key's write, if it has one. */
  function ApplyWrite(rows: seq<AtlassianAuth>, key: AccessTokenKey, written: Option<string>, nowMs: int)
    : (rows': seq<AtlassianAuth>)
    ensures |rows'| == |rows|
    ensures forall j :: 0 <= j < |rows| ==>
              rows'[j].userId == rows[j].userId && rows'[j].teamId == rows[j].teamId &&
              rows'[j].refreshToken == rows[j].refreshToken
  {
    match written
    case Some(token) => WithAccessToken(rows, key.userId, key.teamId, token, nowMs)
    case None => rows
  }

  /** A row that no successfully refreshed key addresses is left as it was. */
  lemma {:induction false} UntouchedRowsUnchanged(
    snapshot: seq<AtlassianAuth>, keys: seq<AccessTokenKey>,
    decodeExp: string -> Option<int>, refresh: string -> Result<string>, nowMs: int, j: nat)
    requires j < |snapshot|
    requires forall k :: 0 <= k < |keys| && Addresses(keys[k], snapshot[j]) ==>
               WrittenToken(snapshot, keys[k], decodeExp, refresh, nowMs).None?
    ensures ApplyRefreshes(snapshot, keys, decodeExp, refresh, nowMs)[j] == snapshot[j]
    decreases |keys|
  {
    if keys != [] {
      var init := keys[..|keys| - 1];
      assert forall a :: 0 <= a < |init| ==> init[a] == keys[a];
      UntouchedRowsUnchanged(snapshot, init, decodeExp, refresh, nowMs, j);
    }
  }

  /** With each (userId, teamId) asked for at most once, as the cache key
      guarantees, a refreshed key's rows end up holding exactly its new token
      and the time of the write. */
  lemma {:induction false} RefreshedRowsHoldNewToken(
    snapshot: seq<AtlassianAuth>, keys: seq<AccessTokenKey>,
    decodeExp: string -> Option<int>, refresh: string -> Result<string>, nowMs: int, j: nat, k: nat)
    requires NoDup(keys)
    requires j < |snapshot| && k < |keys|
    requires Addresses(keys[k], snapshot[j])
    requires WrittenToken(snapshot, keys[k], decodeExp, refresh, nowMs).Some?
    ensures ApplyRefreshes(snapshot, keys, decodeExp, refresh, nowMs)[j] ==
            snapshot[j].(accessToken := WrittenToken(snapshot, keys[k], decodeExp, refresh, nowMs), updatedAt := nowMs)
    decreases |keys|
  {
    var init := keys[..|keys| - 1];
    var last := keys[|keys| - 1];
    assert forall a :: 0 <= a < |init| ==> init[a] == keys[a];
    if k == |keys| - 1 {
      assert forall a :: 0 <= a < |init| ==> init[a] != last;
      UntouchedRowsUnchanged(snapshot, init, decodeExp, refresh, nowMs, j);
    } else {
      assert NoDup(init);
      RefreshedRowsHoldNewToken(snapshot, init, decodeExp, refresh, nowMs, j, k);
      assert last != keys[k];
    }
  }

  /** The AtlassianAuth table, updated in place by the resolver. */
  class AuthStore {
    var rows: seq<AtlassianAuth>

    constructor (initial: seq<AtlassianAuth>)
      ensures rows == initial
    {
      rows := initial;
    }

    /** Writes a new access token and `updatedAt` to the user's rows for the team. */
    method UpdateAccessToken(userId: string, teamId: string, token: string, nowMs: int)
      modifies this
      ensures rows == WithAccessToken(old(rows), userId, teamId, token, nowMs)
    {
      rows := WithAccessToken(rows, userId, teamId, token, nowMs);
    }
  }

  /** One key's promise: its outcome, decided on the snapshot, and the write
      of a refreshed token to the store. */
  method ResolveKey(
    key: AccessTokenKey, snapshot: seq<AtlassianAuth>, store: AuthStore,
    decodeExp: string -> Option<int>, refresh: string -> Result<string>, nowMs: int)
    returns (outcome: Settled<Option<string>>)
    modifies store
    ensures outcome == KeyOutcome(snapshot, key, decodeExp, refresh, nowMs)
    ensures store.rows == ApplyWrite(old(store.rows), key, WrittenToken(snapshot, key, decodeExp, refresh, nowMs), nowMs)
  {
    var userAuths := AuthsOfUser(snapshot, key.userId);
    match DecideToken(userAuths, key.teamId, decodeExp, nowMs) {
      case NoCredential =>
        outcome := Fulfilled(None);
      case KeepExisting(existingAccessToken) =>
        outcome := Fulfilled(Some(existingAccessToken));
      case Refresh(refreshToken) =>
        match refresh(refreshToken) {
          case Err(e) =>
            outcome := Rejected(e);
          case Ok(accessToken) =>
            store.UpdateAccessToken(key.userId, key.teamId, accessToken, nowMs);
            outcome := Fulfilled(Some(accessToken));
        }
    }
  }

  /** The entries of the first keys of a batch, each key decided on its own. */
  function KeyOutcomes(
    snapshot: seq<AtlassianAuth>, keys: seq<AccessTokenKey>,
    decodeExp: string -> Option<int>, refresh: string -> Result<string>, nowMs: int)
    : (r: seq<Settled<Option<string>>>)
    ensures |r| == |keys|
    ensures forall i :: 0 <= i < |keys| ==> r[i] == KeyOutcome(snapshot, keys[i], decodeExp, refresh, nowMs)
  {
    if keys == [] then []
    else
      var init := keys[..|keys| - 1];
      assert forall i :: 0 <= i < |init| ==> init[i] == keys[i];
      KeyOutcomes(snapshot, init, decodeExp, refresh, nowMs) + [KeyOutcome(snapshot, keys[|keys| - 1], decodeExp, refresh, nowMs)]
  }

  /** One more key: its outcome is appended and its write applied last. */
  lemma BatchPrefixStep(
    snapshot: seq<AtlassianAuth>, keys: seq<AccessTokenKey>,
    decodeExp: string -> Option<int>, refresh: string -> Result<string>, nowMs: int, i: nat)
    requires i < |keys|
    ensures KeyOutcomes(snapshot, keys[..i + 1], decodeExp, refresh, nowMs) ==
            KeyOutcomes(snapshot, keys[..i], decodeExp, refresh, nowMs) + [KeyOutcome(snapshot, keys[i], decodeExp, refresh, nowMs)]
    ensures ApplyRefreshes(snapshot, keys[..i + 1], decodeExp, refresh, nowMs) ==
            ApplyWrite(ApplyRefreshes(snapshot, keys[..i], decodeExp, refresh, nowMs), keys[i],
                       WrittenToken(snapshot, keys[i], decodeExp, refresh, nowMs), nowMs)
  {
    assert keys[..i + 1][..i] == keys[..i];
  }

  /** The batch function. Every key is decided on the auth rows as they were
      when the batch started (the auth loader is read before any write), each
      entry is that key's own outcome, and the store receives one write per
      successful refresh, in key order. */
  method FreshAccessTokenBatch(
    keys: seq<AccessTokenKey>, store: AuthStore,
    decodeExp: string -> Option<int>, refresh: string -> Result<string>, nowMs: int)
    returns (r: seq<Settled<Option<string>>>)
    modifies store
    ensures |r| == |keys|
    ensures forall i :: 0 <= i < |keys| ==> r[i] == KeyOutcome(old(store.rows), keys[i], decodeExp, refresh, nowMs)
    ensures store.rows == ApplyRefreshes(old(store.rows), keys, decodeExp, refresh, nowMs)
  {
    var snapshot := store.rows;
    r := [];
    var i := 0;
    while i < |keys|
      invariant 0 <= i <= |keys|
      invariant r == KeyOutcomes(snapshot, keys[..i], decodeExp, refresh, nowMs)
      invariant store.rows == ApplyRefreshes(snapshot, keys[..i], decodeExp, refresh, nowMs)
    {
      BatchPrefixStep(snapshot, keys, decodeExp, refresh, nowMs, i);
      var outcome := ResolveKey(keys[i], snapshot, store, decodeExp, refresh, nowMs);
      r := r + [outcome];
      i := i + 1;
    }
    assert keys[..i] == keys;
  }

  /** `${key.userId}:${key.teamId}` */
  function AccessTokenCacheKey(key: AccessTokenKey): string {
    ColonJoin(key.userId, key.teamId)
  }

  /** Distinct keys have distinct cache keys as long as team ids hold no colon. */
  lemma AccessTokenCacheKeyInjective(k1: AccessTokenKey, k2: AccessTokenKey)
    requires NoColon(k1.teamId) && NoColon(k2.teamId)
    ensures AccessTokenCacheKey(k1) == AccessTokenCacheKey(k2) <==> k1 == k2
  {
    ColonJoinInjectiveRight(k1.userId, k1.teamId, k2.userId, k2.teamId);
  }
}
