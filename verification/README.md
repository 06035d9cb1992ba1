# Parabol custom data loaders and socket token checks, modelled in Dafny

This project models two parts of the Parabol server.

The first is the set of custom DataLoader batch functions in
`packages/server/dataloader/customLoaderMakers.ts`. Each one takes the keys
that GraphQL resolvers asked for during one tick and answers all of them with
as few store reads as possible. Each one also has a `cacheKeyFn` that turns a
key object into the string the DataLoader caches it under.

- `reactables` and `threadSources` take keys that carry an id and a type. Each
  type's sub-loader is asked for the ids of that type. The answers are then
  re-aligned with the keys by id (`normalizeRethinkDbResults`). Both are built
  on the shared module `TypedBatch`.
- `userTasks` issues one Task query for all keys' users and for the union of
  their teams. Each key then filters that result down to its own user and
  teams. Every fetched task is primed into the `tasks` loader. The cache key
  sorts the team ids in place before joining them.
- `freshAtlassianAccessToken` handles each key on its own. It keeps the
  stored Atlassian access token while the token has not expired. Otherwise it
  trades the refresh token for a new access token and writes that back to the
  AtlassianAuth rows.
- `jiraRemoteProject` makes one Atlassian API request per key. A failed
  request rejects only its own entry.
- `meetingSettingsByType` groups the team ids by meeting type and issues one
  query per distinct type. Each key then takes the first row matching both its
  team and its meeting type.

The second part is the socket connection handler,
`src/server/socketHandlers/scConnectionHandler.js`:

- `isTmsValid` compares team lists element by element.
- The `#authenticate` listener closes the socket with code 4501 when a client
  presents a token that expires earlier than the server's token.
- At connection time, the handler re-issues the auth token with the database's
  team list when the token is close to expiry or its team list is stale.

Store tables, sub-loaders and foreign calls are passed in as values:

- the Atlassian refresh and project requests and the JWT decoder are
  functions;
- the clock is a number of milliseconds;
- `REFRESH_JWT_AFTER` is a parameter.

State that the source changes in place is held by classes:

- `TaskLoader`, the `tasks` loader cache;
- `AuthStore`, the AtlassianAuth table;
- `Socket`, the socket's auth token, the tokens set on it and its closes.

The `teamIds` array that the userTasks cache key sorts in place is a Dafny
`array`.

A missing MeetingSettings row is not an error: `docs.find(...)!`
(`customLoaderMakers.ts:206`) yields `undefined` on a missing row, because the
`!` is a compile-time assertion only. The model returns `None` for such a key.

Store queries are modelled as defined filters over a table given as a
sequence. A `getAll` over several index values returns, for each value in
turn, the rows with that value in table order, so a value listed twice
returns its rows twice. In `userTasks` the user ids are not de-duplicated
(`customLoaderMakers.ts:99`), so two keys of the same user in one batch each
receive their own tasks twice (`UserTasks.UserTasksBatch`,
`UserTasks.SharedUserDoublesTasks`).

Functions that only compute a value (the six cache-key functions,
`JoinColon`, `SortedKey`, `Archived`, `LoadMany`, `FetchAll`, `FetchByType`,
`AddKey`, `GroupByType`, `KeyIds`, `AsTyped`, `UserIds`, `KeyTypes`, `KeyOutcome`, `WrittenToken`, `ShouldReissue`,
`PresentsOlderToken`) have no row of their own. They are specified by the
lemmas and methods whose rows below state their properties: the cache-key
lemmas, `JoinColonShape` and `JoinColonInjective`, `QueryTasks`,
`FetchedWhenStored` and `FetchedOrigin`, `FindSettingInFetched`,
`GroupByTypeSpec`, `KeyOutcomeCases`, `HandleConnection` and `HandleMessage`.

## Model

| member | source | states |
|---|---|---|
| Common.ColonJoinInjectiveRight | packages/server/dataloader/customLoaderMakers.ts:70 | `${a}:${b}` joins are equal exactly when both parts are equal, provided the right-hand parts hold no colon |
| Common.ColonJoinInjectiveLeft | packages/server/dataloader/customLoaderMakers.ts:123 | the same, provided the left-hand parts hold no colon |
| Common.ColonJoinCollidesWithColons | packages/server/dataloader/customLoaderMakers.ts:159 | without that condition, two different pairs can give the same cache key |
| Common.Dedup | packages/server/dataloader/customLoaderMakers.ts:100 | `Array.from(new Set(..))` has no duplicates and holds exactly the elements of its input |
| Common.DedupFirstOccurrenceOrder | packages/server/dataloader/customLoaderMakers.ts:100 | `Array.from(new Set(..))` lists the distinct elements in the order of their first occurrence in the input |
| Common.DedupOfDistinct | packages/server/dataloader/customLoaderMakers.ts:100 | de-duplication leaves a duplicate-free list unchanged |
| SortedJoin.CodeUnitLeTotal | packages/server/dataloader/customLoaderMakers.ts:123 | the default `sort()` order on strings (code-unit order) relates any two strings |
| SortedJoin.CodeUnitLeAntisymmetric | packages/server/dataloader/customLoaderMakers.ts:123 | two strings ordered both ways are equal |
| SortedJoin.CodeUnitLeTransitive | packages/server/dataloader/customLoaderMakers.ts:123 | the order is transitive |
| SortedJoin.Insert | packages/server/dataloader/customLoaderMakers.ts:123 | inserting into a sorted list keeps it sorted and adds exactly the new string |
| SortedJoin.SortStrings | packages/server/dataloader/customLoaderMakers.ts:123 | `teamIds.sort()` gives a sorted permutation of its input |
| SortedJoin.SortedUnique | packages/server/dataloader/customLoaderMakers.ts:123 | two sorted lists with the same elements are equal, so the sort result depends only on the multiset of ids |
| SortedJoin.SortedKeyIgnoresOrder | packages/server/dataloader/customLoaderMakers.ts:123 | `${head}:${ids.sort().join(':')}` does not depend on the order of `ids` |
| SortedJoin.JoinColonShape | packages/server/dataloader/customLoaderMakers.ts:123 | `join(':')` of non-empty, colon-free parts is empty for no parts, the part itself for one part, and contains a colon for more |
| SortedJoin.JoinColonInjective | packages/server/dataloader/customLoaderMakers.ts:123 | `join(':')` of non-empty, colon-free parts determines the parts |
| SortedJoin.SortedKeyDeterminesIds | packages/server/dataloader/customLoaderMakers.ts:123 | equal sorted keys mean the same head and the same ids up to order, given a colon-free head and non-empty, colon-free ids (`[""]` and `[]` would both give `head:`) |
| SortedJoin.SortInPlace | packages/server/dataloader/customLoaderMakers.ts:123 | sorting the array in place leaves it holding the sorted permutation of its old contents |
| TypedBatch.IdsOfType | packages/server/dataloader/customLoaderMakers.ts:59 | a type's sub-loader is asked for every id of a key with that type, and for no more ids than there are keys |
| TypedBatch.IdsOfTypeOrigin | packages/server/dataloader/customLoaderMakers.ts:59 | every id asked of a type's sub-loader is the id of some key of that type |
| TypedBatch.IdsOfTypeAppend | packages/server/dataloader/customLoaderMakers.ts:59 | the ids asked of a sub-loader follow key order |
| TypedBatch.IdsOfTwoTypesPartition | packages/server/dataloader/customLoaderMakers.ts:58-60 | with two types, each key's id goes to exactly one of the two sub-loaders |
| TypedBatch.FindById | packages/server/dataloader/customLoaderMakers.ts:65 | the record found for an id is a fetched record with that id; none is found exactly when no fetched record has it |
| TypedBatch.NormalizeById | packages/server/dataloader/customLoaderMakers.ts:65 | the normalized result has one entry per requested id; the entry is a fetched record with that id, or `None` exactly when none was fetched |
| TypedBatch.Batch | packages/server/dataloader/customLoaderMakers.ts:56-66 | the batch answer has one entry per key, and every present entry has the key's id |
| TypedBatch.FetchedWhenStored | packages/server/dataloader/customLoaderMakers.ts:57-63 | a row stored under an id of its type is among the fetched records |
| TypedBatch.FetchedOrigin | packages/server/dataloader/customLoaderMakers.ts:57-63 | every fetched record is the row of some sub-loader under an id asked of it |
| TypedBatch.BatchEntry | packages/server/dataloader/customLoaderMakers.ts:56-66 | entry i is what the sub-loader of the key's own type stores under the key's id, when no id is requested under two types |
| TypedBatch.BatchEntryWithoutLoader | packages/server/dataloader/customLoaderMakers.ts:56-66 | a key whose type has no sub-loader gets `None`, given well-keyed tables and no id requested under two types |
| Reactables.ReactableTypeName | packages/server/dataloader/customLoaderMakers.ts:42-43 | the enum values in cache keys hold no colon |
| Reactables.ReactablesBatch | packages/server/dataloader/customLoaderMakers.ts:54-67 | one entry per key, and every present entry has the key's id |
| Reactables.ReactablesSubLoaderIds | packages/server/dataloader/customLoaderMakers.ts:58-60 | `comments` and `retroReflections` are asked, between them, for one id per key, and each key's id goes to its own type's sub-loader |
| Reactables.ReactablesSubLoaderIdOrigin | packages/server/dataloader/customLoaderMakers.ts:59 | every id asked of a sub-loader is the id of a key of that sub-loader's type |
| Reactables.ReactablesSubLoaderIdsInKeyOrder | packages/server/dataloader/customLoaderMakers.ts:59 | the sub-loader ids follow key order |
| Reactables.ReactablesBatchEntry | packages/server/dataloader/customLoaderMakers.ts:57-66 | entry i is the row of the key's own type's table under the key's id, or `None`, given well-keyed tables and no id requested under both types in the batch |
| Reactables.ReactablesSharedIdCrossesTypes | packages/server/dataloader/customLoaderMakers.ts:63-65 | re-aligning by id alone lets a reflection key receive a comment with the same id in the same batch |
| Reactables.ReactablesCacheKeyInjective | packages/server/dataloader/customLoaderMakers.ts:70 | `${id}:${type}` is equal for two keys exactly when the keys are equal |
| ThreadSources.ThreadSourceTypeName | packages/server/dataloader/customLoaderMakers.ts:47-48 | the enum values in cache keys hold no colon |
| ThreadSources.ThreadSourcesBatch | packages/server/dataloader/customLoaderMakers.ts:75-87 | one entry per key, and every present entry has the key's sourceId |
| ThreadSources.ThreadSourcesSubLoaderIds | packages/server/dataloader/customLoaderMakers.ts:79-81 | `agendaItems` and `retroReflectionGroups` are asked, between them, for one id per key, and each key's sourceId goes to its own type's sub-loader |
| ThreadSources.ThreadSourcesSubLoaderIdOrigin | packages/server/dataloader/customLoaderMakers.ts:80 | every id asked of a sub-loader is the sourceId of a key of that sub-loader's type |
| ThreadSources.ThreadSourcesSubLoaderIdsInKeyOrder | packages/server/dataloader/customLoaderMakers.ts:80 | the sub-loader ids follow key order |
| ThreadSources.ThreadSourcesBatchEntry | packages/server/dataloader/customLoaderMakers.ts:78-86 | entry i is the row of the key's own type's table under the key's sourceId, or `None`, given well-keyed tables and no sourceId requested under both types in the batch |
| ThreadSources.ThreadSourcesCacheKeyInjective | packages/server/dataloader/customLoaderMakers.ts:90 | `${sourceId}:${type}` is equal for two keys exactly when the keys are equal |
| UserTasks.AllTeamIds | packages/server/dataloader/customLoaderMakers.ts:100 | `flatMap` holds exactly the team ids of some key |
| UserTasks.TeamIdUnion | packages/server/dataloader/customLoaderMakers.ts:100 | the queried team ids are every key's team ids, each once |
| UserTasks.RowsOfUser | packages/server/dataloader/customLoaderMakers.ts:104 | one user's rows are exactly the table's rows of that user |
| UserTasks.GetAllByUser | packages/server/dataloader/customLoaderMakers.ts:103-104 | `getAll` over the user ids returns exactly the rows of a listed user |
| UserTasks.OnTeamsUnarchived | packages/server/dataloader/customLoaderMakers.ts:105-110 | the two filters keep exactly the rows on a listed team that are not tagged archived |
| UserTasks.QueryTasks | packages/server/dataloader/customLoaderMakers.ts:102-111 | the query returns exactly the non-archived tasks of a queried user on a queried team |
| UserTasks.TasksForKey | packages/server/dataloader/customLoaderMakers.ts:115-119 | a key keeps exactly the fetched tasks of its user on one of its teams |
| UserTasks.UserRowsForKey | packages/server/dataloader/customLoaderMakers.ts:104-119 | the rows fetched for one listed user give a key its own non-archived tasks when the user is the key's, and nothing otherwise |
| UserTasks.QueryTasksCons | packages/server/dataloader/customLoaderMakers.ts:102-111 | the query over a list of users is the query over its first user followed by the query over the rest |
| UserTasks.BatchedTasksForKey | packages/server/dataloader/customLoaderMakers.ts:99-119 | filtering the shared query by a key gives the key's own non-archived tasks, in table order, once for every listing of its user |
| UserTasks.BatchedTasksEqualDirect | packages/server/dataloader/customLoaderMakers.ts:102-119 | when the key's user is listed once, filtering the shared query by the key gives exactly the key's own non-archived tasks, in the same order |
| UserTasks.SharedUserDoublesTasks | packages/server/dataloader/customLoaderMakers.ts:99-119 | two keys of one user in a batch make the first key receive its own tasks twice |
| UserTasks.PrimeAllKeys | packages/server/dataloader/customLoaderMakers.ts:112-114 | after clearing and priming every fetched task, an id is cached exactly when it was cached before or a fetched task has it; an id no fetched task has keeps its entry |
| UserTasks.PrimeAllLastWins | packages/server/dataloader/customLoaderMakers.ts:112-114 | an id is left holding the last fetched task with that id |
| UserTasks.TaskLoader.Clear | packages/server/dataloader/customLoaderMakers.ts:113 | `clear(id)` removes only that id |
| UserTasks.TaskLoader.Prime | packages/server/dataloader/customLoaderMakers.ts:113 | `prime(id, task)` caches the task unless the id is already cached |
| UserTasks.PrimeTasks | packages/server/dataloader/customLoaderMakers.ts:112-114 | the `forEach` leaves the cache as `PrimeAll` describes |
| UserTasks.UserTasksBatch | packages/server/dataloader/customLoaderMakers.ts:97-119 | one entry per key; entry i is the key's own non-archived tasks, repeated once per key of the batch with the same user, and exactly once when the batch's users are distinct; the `tasks` cache is primed with every fetched task |
| UserTasks.UserTasksCacheKeyIgnoresTeamOrder | packages/server/dataloader/customLoaderMakers.ts:123 | keys listing the same teams in another order share a cache entry |
| UserTasks.UserTasksCacheKeyDistinguishes | packages/server/dataloader/customLoaderMakers.ts:123 | two keys share a cache key exactly when they have the same user and the same teams, given colon-free user ids and non-empty, colon-free team ids |
| UserTasks.UserTasksCacheKeyFn | packages/server/dataloader/customLoaderMakers.ts:123 | the cache key function returns the sorted key and leaves the key's own `teamIds` array sorted |
| AtlassianAccessToken.AuthsOfUser | packages/server/dataloader/customLoaderMakers.ts:134 | the loaded auths are exactly the user's rows |
| AtlassianAccessToken.FindTeamAuth | packages/server/dataloader/customLoaderMakers.ts:135 | `find` returns the first row of the team (no earlier row has that team), or nothing exactly when no row has that team |
| AtlassianAccessToken.Unexpired | packages/server/dataloader/customLoaderMakers.ts:138-141 | the stored token is kept exactly when it is present, decodes to an expiry, and `exp >= Math.floor(now / 1000)` |
| AtlassianAccessToken.FloorSecondsBound | packages/server/dataloader/customLoaderMakers.ts:140 | `exp >= Math.floor(now / 1000)` holds exactly when `now < (exp + 1) * 1000` |
| AtlassianAccessToken.DecideToken | packages/server/dataloader/customLoaderMakers.ts:135-144 | no credential exactly when there is no team auth or no refresh token; otherwise the stored token is kept exactly when it is unexpired, and the refresh uses the stored refresh token |
| AtlassianAccessToken.KeptTokenMonotone | packages/server/dataloader/customLoaderMakers.ts:140 | a token kept at some time is kept at every earlier time |
| AtlassianAccessToken.KeyOutcomeCases | packages/server/dataloader/customLoaderMakers.ts:133-154 | a key's entry is null without a credential, the stored token while it is unexpired, and otherwise the refresh result; a failed refresh rejects only that entry and writes nothing |
| AtlassianAccessToken.WithAccessToken | packages/server/dataloader/customLoaderMakers.ts:147-152 | the update keeps the number of rows |
| AtlassianAccessToken.ApplyWrite | packages/server/dataloader/customLoaderMakers.ts:147-152 | one key's write keeps the number of rows and every row's user, team and refresh token |
| AtlassianAccessToken.ApplyRefreshes | packages/server/dataloader/customLoaderMakers.ts:147-152 | the writes keep every row's user, team and refresh token |
| AtlassianAccessToken.UntouchedRowsUnchanged | packages/server/dataloader/customLoaderMakers.ts:147-152 | a row that no successfully refreshed key addresses is left unchanged |
| AtlassianAccessToken.RefreshedRowsHoldNewToken | packages/server/dataloader/customLoaderMakers.ts:147-152 | with distinct keys, a refreshed key's rows hold its new token and the write time |
| AtlassianAccessToken.AuthStore.UpdateAccessToken | packages/server/dataloader/customLoaderMakers.ts:147-152 | the table is updated as `WithAccessToken` describes |
| AtlassianAccessToken.ResolveKey | packages/server/dataloader/customLoaderMakers.ts:133-154 | one key's promise settles to that key's outcome, decided on the snapshot, and writes the refreshed token, if any, to the key's rows |
| AtlassianAccessToken.KeyOutcomes | packages/server/dataloader/customLoaderMakers.ts:131-156 | the entries of a batch are aligned with the keys, each that key's own outcome |
| AtlassianAccessToken.FreshAccessTokenBatch | packages/server/dataloader/customLoaderMakers.ts:131-156 | one entry per key, each decided on the rows as they were at the start; the table receives the successful refreshes' writes in key order |
| AtlassianAccessToken.AccessTokenCacheKeyInjective | packages/server/dataloader/customLoaderMakers.ts:159 | `${userId}:${teamId}` is equal for two keys exactly when the keys are equal, given colon-free team ids |
| JiraRemoteProject.JiraRemoteProjectBatch | packages/server/dataloader/customLoaderMakers.ts:166-173 | one entry per key; an entry is rejected exactly when its own request failed, with that request's error |
| JiraRemoteProject.JiraRemoteProjectIsolation | packages/server/dataloader/customLoaderMakers.ts:167-172 | a key's entry is what it would be if the key were loaded alone |
| JiraRemoteProject.JiraRemoteProjectBatchAppend | packages/server/dataloader/customLoaderMakers.ts:167-172 | splitting a batch in two and concatenating the answers changes nothing |
| JiraRemoteProject.JiraRemoteProjectCacheKeyIgnoresToken | packages/server/dataloader/customLoaderMakers.ts:176 | two keys share a cache key exactly when their cloud and project ids match, whatever their tokens |
| JiraRemoteProject.JiraRemoteProjectSharedEntryDiffers | packages/server/dataloader/customLoaderMakers.ts:168-176 | two keys that share a cache entry can have different answers from the batch function |
| MeetingSettingsByType.TeamIdsOfType | packages/server/dataloader/customLoaderMakers.ts:186-190 | a type's list holds exactly the team ids of the keys of that type |
| MeetingSettingsByType.NoTeamIdsOfAbsentType | packages/server/dataloader/customLoaderMakers.ts:188 | a type that no key asks for has no team ids |
| MeetingSettingsByType.TeamIdsOfTypeStep | packages/server/dataloader/customLoaderMakers.ts:188 | one more key appends its team id to its own type's list only |
| MeetingSettingsByType.UnseenTypeHasNoTeamIds | packages/server/dataloader/customLoaderMakers.ts:188 | a type not yet listed has no team ids yet |
| MeetingSettingsByType.TypeOrderStep | packages/server/dataloader/customLoaderMakers.ts:187-188 | one more key adds its type at the end of the type order exactly when the type is new |
| MeetingSettingsByType.TypeGroupsStep | packages/server/dataloader/customLoaderMakers.ts:187-189 | one more key leaves every list of the `types` object holding exactly the team ids of its type's keys so far |
| MeetingSettingsByType.GroupByTypeSpec | packages/server/dataloader/customLoaderMakers.ts:185-191 | the `types` object lists every distinct meeting type once, in order of first request, each with exactly its keys' team ids in key order |
| MeetingSettingsByType.GroupTeamIdsByType | packages/server/dataloader/customLoaderMakers.ts:185-191 | the `forEach` builds a `types` object that lists every distinct meeting type once, in order of first request, each with exactly its keys' team ids in key order |
| MeetingSettingsByType.SettingsOfTeam | packages/server/dataloader/customLoaderMakers.ts:197 | one team's rows are exactly the table's rows of that team |
| MeetingSettingsByType.GetAllByTeam | packages/server/dataloader/customLoaderMakers.ts:196-197 | `getAll` over the team ids returns exactly the rows of a listed team |
| MeetingSettingsByType.OfMeetingType | packages/server/dataloader/customLoaderMakers.ts:198 | `filter({meetingType})` keeps exactly the rows of that meeting type |
| MeetingSettingsByType.OfMeetingTypeAppend | packages/server/dataloader/customLoaderMakers.ts:196-198 | the filter distributes over the teams' row lists |
| MeetingSettingsByType.QuerySettings | packages/server/dataloader/customLoaderMakers.ts:196-200 | a query returns exactly the rows of the given teams and meeting type |
| MeetingSettingsByType.FindSetting | packages/server/dataloader/customLoaderMakers.ts:206 | `find` returns a row matching team and type, or nothing exactly when no row matches |
| MeetingSettingsByType.FindSettingAppend | packages/server/dataloader/customLoaderMakers.ts:203-206 | searching the flattened results searches them query by query |
| MeetingSettingsByType.FindSettingInTeamRows | packages/server/dataloader/customLoaderMakers.ts:196-206 | among one team's fetched rows, the first of the key's meeting type is the table's first match |
| MeetingSettingsByType.FindSettingInQuery | packages/server/dataloader/customLoaderMakers.ts:196-206 | narrowing the table to the requested teams and type does not change the first match |
| MeetingSettingsByType.FindSettingInFetched | packages/server/dataloader/customLoaderMakers.ts:193-206 | a key finds among the fetched rows what it would find in the whole table |
| MeetingSettingsByType.FindSettingOfOtherTypes | packages/server/dataloader/customLoaderMakers.ts:193-206 | rows fetched for other meeting types never match a key |
| MeetingSettingsByType.KeyFindsInFetched | packages/server/dataloader/customLoaderMakers.ts:193-206 | with the keys grouped, each key finds among the fetched rows what it would find in the whole table |
| MeetingSettingsByType.MeetingSettingsBatch | packages/server/dataloader/customLoaderMakers.ts:183-207 | one query per distinct meeting type, each for exactly that type's team ids; entry i is the table's first row matching the key, or `None` |
| MeetingSettingsByType.MeetingSettingsCacheKeyInjective | packages/server/dataloader/customLoaderMakers.ts:211 | `${teamId}:${meetingType}` is equal for two keys exactly when the keys are equal, given colon-free meeting types |
| ConnectionHandler.IsTmsValid | src/server/socketHandlers/scConnectionHandler.js:10-16 | true exactly when the lists have equal length and equal elements at every index, that is, when they are equal |
| ConnectionHandler.TimeLeftMs | src/server/socketHandlers/scConnectionHandler.js:47-49 | the time left is negative exactly when the token has expired |
| ConnectionHandler.ReissueOnlyGetsMoreLikely | src/server/socketHandlers/scConnectionHandler.js:53 | a token due for re-issue stays due as time goes on, and a stale team list always makes it due |
| ConnectionHandler.FreshTokenAccepted | src/server/socketHandlers/scConnectionHandler.js:31 | presenting a token that expires no earlier than the server's never closes the socket |
| ConnectionHandler.Socket.SetAuthToken | src/server/socketHandlers/scConnectionHandler.js:55 | the token becomes current and is recorded as sent |
| ConnectionHandler.Socket.Disconnect | src/server/socketHandlers/scConnectionHandler.js:32 | the close is recorded, and the token is untouched |
| ConnectionHandler.HandleMessage | src/server/socketHandlers/scConnectionHandler.js:27-35 | the socket is closed with 4501 "naughty nelly" exactly when an `#authenticate` message presents an expiry strictly below the server token's |
| ConnectionHandler.HandleConnection | src/server/socketHandlers/scConnectionHandler.js:44-56 | the token is re-issued with the database's team list exactly when `exp*1000 - now < REFRESH_JWT_AFTER` or the team lists differ; otherwise it is untouched; afterwards its team list always equals the database's |

## Left out

- DataLoader scheduling is not modelled: tick-based batching, promise
  caching, and de-duplication of keys by cache key. Only the batch functions
  and the cache-key functions are modelled.
- `normalizeRethinkDbResults` is not part of this model. It is modelled by the
  contract the resolvers rely on. Entry i is a fetched record with id
  `ids[i]`, or `None` when there is none. When the same id is fetched twice,
  the model picks the first fetched record; the real helper may pick another.
  The flattened sub-loader results (`customLoaderMakers.ts:63`) hold
  `undefined` for ids a sub-loader did not find. The model's list of fetched
  records holds `None` there and `FindById` skips those entries, which assumes
  the helper tolerates such entries.
- `promiseAllPartial` is not part of this model either. It is modelled by
  per-key isolation: each entry is its own key's value, or that key's error.
- The database is not modelled. Each table is a parameter (a sequence of
  rows), and each query is a defined filter over it (`QueryTasks`,
  `QuerySettings`, the AtlassianAuth lookup). The RethinkDB driver calls are
  left out. The order of a multi-key `getAll` (per key, in argument order,
  each key's rows in table order) and its returning a repeated key's rows
  again are assumptions of the model about the store.
- Foreign calls are parameters:
  - the `jsonwebtoken` and `jwt-decode` decoders (a function from token to
    optional expiry);
  - `AtlassianServerManager.refresh` and `getProject` (functions returning a
    result or an error).
- ConnectionHandler.HandleMessage: `jwtDecode` throws on a malformed token
  (`scConnectionHandler.js:29`), which ends the handler with an exception;
  the model's decoder returns `None` instead, so that case is not an
  exception in the model.
- ConnectionHandler.IsTmsValid: a token without a `tms` claim makes
  `isTmsValid` throw at `.length` (`scConnectionHandler.js:11`); the model's
  token always carries a team list, so that exception is not modelled.
- A rejected store query or a rejected sub-loader batch rejects every key of
  the batch in the source (`customLoaderMakers.ts:57-62`, `:102-111`,
  `:193-202`). The model's batch functions are total, so that failure path is
  not modelled.
- AtlassianAccessToken.FreshAccessTokenBatch: some behaviour is simplified.
  - One clock reading is used for the whole batch. The source reads
    `new Date()` once per key.
  - The AtlassianAuth writes always succeed, in key order. In the source they
    run concurrently, and a failed write would reject its key. With distinct
    keys, the writes touch disjoint rows, so their order does not change the
    final table.
- Failure cases that make the source throw are not modelled:
  - `tmsDB` being null (the User row is missing);
  - the socket having no auth token.
- The billing update of inactive users (`scConnectionHandler.js:57-79`) is not
  modelled. It is fire-and-forget database work with no result used by the
  handler.
- The `console.log` calls (`customLoaderMakers.ts:192`,
  `scConnectionHandler.js:40`) are not modelled, and neither is the wiring of
  the `graphql`, `subscribe`, `unsubscribe` and `disconnect` listeners.
- Some behaviour of `socket.setAuthToken` is not modelled: SocketCluster's
  signing of the token and its sending to the client. The model records the
  token as current and issued.
- Aliasing in HandleConnection is not modelled. In the source,
  `authToken.tms = tmsDB` mutates the socket's own token object before
  `setAuthToken`. The model's token is a value, so only the state after the
  `if` is described.
- ConnectionHandler.HandleConnection: the source reads the socket's token
  (`scConnectionHandler.js:45-46`), then awaits the User row (`:51`), and only
  then decides and calls `setAuthToken` (`:53-55`). During that await other
  socket events can run, such as the message listener (`:27-35`) or a client
  `#authenticate` that replaces the socket's token. The source then writes
  back the token it read before the await, or leaves the new token with an
  unchecked `tms`. The model reads, decides and writes in one atomic step, so
  its promise that the token ends up with the database's team list holds only
  when nothing runs during the await.
- Enum string values come from generated GraphQL types that are not part of
  this model. Reactable and thread source types are assumed to be their upper-case
  names. Meeting types are kept as strings, and the cache-key lemmas assume
  they hold no colon.
- Strings are sequences of characters. The code-unit order of the default
  `sort()` is modelled as the order of those characters; UTF-16 surrogate
  pairs are not distinguished.
- `Object.entries` order in `meetingSettingsByType` is modelled as insertion
  order. That is JavaScript's order for keys that do not look like array
  indices, and meeting types do not.
- The client files are context only and are not modelled:
  `useUpdatedSafeRoute.ts`, `EditReflectionMutation.ts`,
  `AtlassianConfigMenu.tsx`, `ActionMeetingFirstCallHelpMenu.tsx`,
  `EmailExportCSVButton.tsx`, `.eslintrc.js` and `relayFetchQuery.js`.
