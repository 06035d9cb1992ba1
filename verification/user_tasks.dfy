/** The `userTasks` batch resolver: keys `{userId, teamIds}`; one store query
    for every key's user and the union of every key's teams, then each key
    filters the fetched tasks down to its own user and teams. Every fetched task
    is also placed in the `tasks` loader's cache. */
module UserTasks {
  import opened Common
  import opened SortedJoin

  datatype Task = Task(id: string, userId: string, teamId: string, tags: seq<string>)

  datatype UserTasksKey = UserTasksKey(userId: string, teamIds: seq<string>)

  predicate Archived(task: Task) {
    "archived" in task.tags
  }

  /** `keys.map(({userId}) => userId)` */
  function UserIds(keys: seq<UserTasksKey>): (ids: seq<string>)
    ensures |ids| == |keys| && forall i :: 0 <= i < |keys| ==> ids[i] == keys[i].userId
  {
    seq(|keys|, i requires 0 <= i < |keys| => keys[i].userId)
  }

  /** `keys.flatMap(({teamIds}) => teamIds)` */
  function AllTeamIds(keys: seq<UserTasksKey>): (ids: seq<string>)
    ensures forall i, t :: 0 <= i < |keys| && t in keys[i].teamIds ==> t in ids
    ensures forall t :: t in ids ==> exists i :: 0 <= i < |keys| && t in keys[i].teamIds
  {
    if keys == [] then []
    else
      var rest := AllTeamIds(keys[1..]);
      assert forall i :: 1 <= i < |keys| ==> keys[i] == keys[1..][i - 1];
      assert forall t :: t in rest ==> exists i :: 0 <= i < |keys| && t in keys[i].teamIds by {
        forall t | t in rest ensures exists i :: 0 <= i < |keys| && t in keys[i].teamIds {
          var i :| 0 <= i < |keys[1..]| && t in keys[1..][i].teamIds;
          assert t in keys[i + 1].teamIds;
        }
      }
      keys[0].teamIds + rest
  }

  /** `Array.from(new Set(keys.flatMap(({teamIds}) => teamIds)))`: every team
      any key asks about, each once. */
  function TeamIdUnion(keys: seq<UserTasksKey>): (ids: seq<string>)
    ensures NoDup(ids)
    ensures forall i, t :: 0 <= i < |keys| && t in keys[i].teamIds ==> t in ids
    ensures forall t :: t in ids ==> exists i :: 0 <= i < |keys| && t in keys[i].teamIds
  {
    var all := AllTeamIds(keys);
    var ids := Dedup(all);
    assert forall t :: t in all ==> t in ids by {
      forall t | t in all ensures t in ids {
        var k :| 0 <= k < |all| && all[k] == t;
      }
    }
    assert forall t :: t in ids ==> t in all by {
      forall t | t in ids ensures t in all {
        var k :| 0 <= k < |ids| && ids[k] == t;
      }
    }
    ids
  }

  /** One user's rows of the Task table, in table order. */
  function RowsOfUser(table: seq<Task>, userId: string): (rows: seq<Task>)
    ensures forall t :: t in rows <==> t in table && t.userId == userId
  {
    if table == [] then []
    else
      assert table == [table[0]] + table[1..];
      (if table[0].userId == userId then [table[0]] else []) + RowsOfUser(table[1..], userId)
  }

  /** `getAll(r.args(userIds), {index: 'userId'})`: the rows of each listed
      user in turn, so a user listed twice has its rows returned twice. */
  function GetAllByUser(table: seq<Task>, userIds: seq<string>): (rows: seq<Task>)
    ensures forall t :: t in rows <==> t in table && t.userId in userIds
  {
    if userIds == [] then []
    else
      assert userIds == [userIds[0]] + userIds[1..];
      RowsOfUser(table, userIds[0]) + GetAllByUser(table, userIds[1..])
  }

  /** The two `filter`s: the row's team is among `teamIds`, and the row is not
      tagged archived. */
  function OnTeamsUnarchived(rows: seq<Task>, teamIds: seq<string>): (kept: seq<Task>)
    ensures forall t :: t in kept <==> t in rows && t.teamId in teamIds && !Archived(t)
  {
    if rows == [] then []
    else
      assert rows == [rows[0]] + rows[1..];
      (if rows[0].teamId in teamIds && !Archived(rows[0]) then [rows[0]] else [])
        + OnTeamsUnarchived(rows[1..], teamIds)
  }

  /** The Task query: the unarchived rows of the listed users on the listed
      teams, once per listing of their user. */
  function QueryTasks(table: seq<Task>, userIds: seq<string>, teamIds: seq<string>): (r: seq<Task>)
    ensures forall t :: t in r <==> t in table && t.userId in userIds && t.teamId in teamIds && !Archived(t)
  {
    OnTeamsUnarchived(GetAllByUser(table, userIds), teamIds)
  }

  /** `allUsersTasks.filter((task) => task.userId === key.userId && key.teamIds.includes(task.teamId))` */
  function TasksForKey(fetched: seq<Task>, key: UserTasksKey): (r: seq<Task>)
    ensures |r| <= |fetched|
    ensures forall t :: t in r <==> t in fetched && t.userId == key.userId && t.teamId in key.teamIds
  {
    if fetched == [] then []
    else
      var t := fetched[0];
      assert fetched == [t] + fetched[1..];
      (if t.userId == key.userId && t.teamId in key.teamIds then [t] else [])
        + TasksForKey(fetched[1..], key)
  }

  /** The reference answer for one key asked on its own: the user's tasks on
      the listed teams that are not archived, in table order. */
  function DirectTasks(table: seq<Task>, key: UserTasksKey): seq<Task> {
    if table == [] then []
    else
      var t := table[0];
      (if t.userId == key.userId && t.teamId in key.teamIds && !Archived(t) then [t] else [])
        + DirectTasks(table[1..], key)
  }

  /** `s` listed `n` times over. */
  function Repeat<T>(s: seq<T>, n: nat): seq<T> {
    if n == 0 then [] else s + Repeat(s, n - 1)
  }

  lemma {:induction false} TasksForKeyAppend(a: seq<Task>, b: seq<Task>, key: UserTasksKey)
    ensures TasksForKey(a + b, key) == TasksForKey(a, key) + TasksForKey(b, key)
  {
    if a == [] {
      assert a + b == b;
    } else {
      assert (a + b)[0] == a[0] && (a + b)[1..] == a[1..] + b;
      TasksForKeyAppend(a[1..], b, key);
    }
  }

  lemma {:induction false} OnTeamsUnarchivedAppend(a: seq<Task>, b: seq<Task>, teamIds: seq<string>)
    ensures OnTeamsUnarchived(a + b, teamIds) == OnTeamsUnarchived(a, teamIds) + OnTeamsUnarchived(b, teamIds)
  {
    if a == [] {
      assert a + b == b;
    } else {
      assert (a + b)[0] == a[0] && (a + b)[1..] == a[1..] + b;
      OnTeamsUnarchivedAppend(a[1..], b, teamIds);
    }
  }

  /** The rows fetched for one listed user give a key its own answer when the
      user is the key's, and nothing otherwise. */
  lemma {:induction false} UserRowsForKey(table: seq<Task>, userId: string, teamIds: seq<string>, key: UserTasksKey)
    requires forall t :: t in key.teamIds ==> t in teamIds
    ensures TasksForKey(OnTeamsUnarchived(RowsOfUser(table, userId), teamIds), key) ==
            if userId == key.userId then DirectTasks(table, key) else []
  {
    if table != [] {
      var t, rest := table[0], table[1..];
      var head := if t.userId == userId then [t] else [];
      assert RowsOfUser(table, userId) == head + RowsOfUser(rest, userId);
      OnTeamsUnarchivedAppend(head, RowsOfUser(rest, userId), teamIds);
      TasksForKeyAppend(OnTeamsUnarchived(head, teamIds), OnTeamsUnarchived(RowsOfUser(rest, userId), teamIds), key);
      UserRowsForKey(rest, userId, teamIds, key);
      if t.userId == userId {
        assert OnTeamsUnarchived(head, teamIds) == if t.teamId in teamIds && !Archived(t) then [t] else [];
      }
    }
  }

  /** The query over a list of users is the query over its first user, then
      the query over the rest. */
  lemma QueryTasksCons(table: seq<Task>, userIds: seq<string>, teamIds: seq<string>)
    requires userIds != []
    ensures QueryTasks(table, userIds, teamIds) ==
            OnTeamsUnarchived(RowsOfUser(table, userIds[0]), teamIds) + QueryTasks(table, userIds[1..], teamIds)
  {
    assert GetAllByUser(table, userIds) == RowsOfUser(table, userIds[0]) + GetAllByUser(table, userIds[1..]);
    OnTeamsUnarchivedAppend(RowsOfUser(table, userIds[0]), GetAllByUser(table, userIds[1..]), teamIds);
  }

  /** Listing one more user adds one more copy of a key's answer when the user
      is the key's, and nothing otherwise. */
  lemma RepeatCons<T, U>(d: seq<T>, userIds: seq<U>, x: U, mine: seq<T>)
    requires userIds != []
    requires mine == if userIds[0] == x then d else []
    ensures mine + Repeat(d, multiset(userIds[1..])[x]) == Repeat(d, multiset(userIds)[x])
  {
    assert userIds == [userIds[0]] + userIds[1..];
    var c := multiset(userIds[1..])[x];
    if userIds[0] == x {
      assert multiset(userIds)[x] == c + 1;
    } else {
      assert multiset(userIds)[x] == c;
    }
  }

  /** What one key receives from the shared query: its own answer
      (`DirectTasks`), once for every time its user is listed in `userIds`,
      provided the query covers the key's teams. */
  lemma {:induction false} BatchedTasksForKey(table: seq<Task>, userIds: seq<string>, teamIds: seq<string>, key: UserTasksKey)
    requires forall t :: t in key.teamIds ==> t in teamIds
    ensures TasksForKey(QueryTasks(table, userIds, teamIds), key) ==
            Repeat(DirectTasks(table, key), multiset(userIds)[key.userId])
  {
    if userIds != [] {
      var mine := OnTeamsUnarchived(RowsOfUser(table, userIds[0]), teamIds);
      QueryTasksCons(table, userIds, teamIds);
      TasksForKeyAppend(mine, QueryTasks(table, userIds[1..], teamIds), key);
      UserRowsForKey(table, userIds[0], teamIds, key);
      BatchedTasksForKey(table, userIds[1..], teamIds, key);
      RepeatCons(DirectTasks(table, key), userIds, key.userId, TasksForKey(mine, key));
    }
  }

  /** Batching is invisible to a key whose user is listed once: filtering the
      shared query result by the key gives exactly what the key's own query
      would have returned, in the same order. */
  lemma BatchedTasksEqualDirect(table: seq<Task>, userIds: seq<string>, teamIds: seq<string>, key: UserTasksKey)
    requires multiset(userIds)[key.userId] == 1
    requires forall t :: t in key.teamIds ==> t in teamIds
    ensures TasksForKey(QueryTasks(table, userIds, teamIds), key) == DirectTasks(table, key)
  {
    BatchedTasksForKey(table, userIds, teamIds, key);
    assert DirectTasks(table, key) + [] == DirectTasks(table, key);
  }

  /** Two keys of one user in the same batch list that user twice, so each of
      them receives its own tasks twice over. */
  lemma SharedUserDoublesTasks(table: seq<Task>, key: UserTasksKey, other: UserTasksKey)
    requires other.userId == key.userId
    ensures TasksForKey(QueryTasks(table, UserIds([key, other]), TeamIdUnion([key, other])), key) ==
            DirectTasks(table, key) + DirectTasks(table, key)
  {
    var keys := [key, other];
    var userIds, teamIds := UserIds(keys), TeamIdUnion(keys);
    assert userIds == [key.userId, key.userId];
    assert multiset(userIds)[key.userId] == 2;
    assert keys[0] == key;
    assert forall t :: t in key.teamIds ==> t in teamIds;
    BatchedTasksForKey(table, userIds, teamIds, key);
    var d := DirectTasks(table, key);
    assert d + [] == d;
    assert Repeat(d, 1) == d;
    assert Repeat(d, 2) == d + d;
  }

  /** The `tasks` loader's cache after `clear(task.id).prime(task.id, task)` for
      each task in turn. */
  function PrimeAll(cache: map<string, Task>, tasks: seq<Task>): map<string, Task> {
    if tasks == [] then cache
    else PrimeAll(cache, tasks[..|tasks| - 1])[tasks[|tasks| - 1].id := tasks[|tasks| - 1]]
  }

  /** An id is cached afterwards exactly when it was cached before or some
      fetched task has it, and an id no fetched task has keeps its entry. */
  lemma {:induction false} PrimeAllKeys(cache: map<string, Task>, tasks: seq<Task>, id: string)
    ensures id in PrimeAll(cache, tasks) <==>
            id in cache || exists k :: 0 <= k < |tasks| && tasks[k].id == id
    ensures id in cache && (forall k :: 0 <= k < |tasks| ==> tasks[k].id != id) ==>
            id in PrimeAll(cache, tasks) && PrimeAll(cache, tasks)[id] == cache[id]
  {
    if tasks != [] {
      var init := tasks[..|tasks| - 1];
      PrimeAllKeys(cache, init, id);
      assert forall k :: 0 <= k < |init| ==> init[k] == tasks[k];
      if tasks[|tasks| - 1].id != id && exists k :: 0 <= k < |tasks| && tasks[k].id == id {
        var k :| 0 <= k < |tasks| && tasks[k].id == id;
        assert init[k].id == id;
      }
    }
  }

  /** The entry cached under a task's id is the last fetched task with that id. */
  lemma {:induction false} PrimeAllLastWins(cache: map<string, Task>, tasks: seq<Task>, k: nat)
    requires k < |tasks|
    requires forall k' :: k < k' < |tasks| ==> tasks[k'].id != tasks[k].id
    ensures tasks[k].id in PrimeAll(cache, tasks) && PrimeAll(cache, tasks)[tasks[k].id] == tasks[k]
  {
    if k < |tasks| - 1 {
      var init := tasks[..|tasks| - 1];
      assert forall a :: 0 <= a < |init| ==> init[a] == tasks[a];
      PrimeAllLastWins(cache, init, k);
    }
  }

  /** The per-request `tasks` loader, reduced to its cache of tasks by id. */
  class TaskLoader {
    var cache: map<string, Task>

    constructor ()
      ensures cache == map[]
    {
      cache := map[];
    }

    /** `clear(id)`: forget whatever is cached under `id`. */
    method Clear(id: string)
      modifies this
      ensures cache == old(cache) - {id}
    {
      cache := cache - {id};
    }

    /** `prime(id, task)`: cache `task` under `id` unless something is cached there already. */
    method Prime(id: string, task: Task)
      modifies this
      ensures cache == if id in old(cache) then old(cache) else old(cache)[id := task]
    {
      if id !in cache {
        cache := cache[id := task];
      }
    }
  }

  /** `allUsersTasks.forEach((task) => taskLoader.clear(task.id).prime(task.id, task))` */
  method PrimeTasks(taskLoader: TaskLoader, tasks: seq<Task>)
    modifies taskLoader
    ensures taskLoader.cache == PrimeAll(old(taskLoader.cache), tasks)
  {
    var i := 0;
    while i < |tasks|
      invariant 0 <= i <= |tasks|
      invariant taskLoader.cache == PrimeAll(old(taskLoader.cache), tasks[..i])
    {
      var task := tasks[i];
      ghost var before := taskLoader.cache;
      taskLoader.Clear(task.id);
      taskLoader.Prime(task.id, task);
      assert taskLoader.cache == before[task.id := task];
      assert tasks[..i + 1][..i] == tasks[..i];
      i := i + 1;
    }
    assert tasks[..i] == tasks;
  }

  /** The batch function. Entry i is the key's own answer (`DirectTasks`),
      repeated once for every key of the batch with the same user, so exactly
      the key's own answer when the batch's users are distinct; every fetched
      task replaces what the `tasks` loader had cached under its id. */
  method UserTasksBatch(keys: seq<UserTasksKey>, table: seq<Task>, taskLoader: TaskLoader)
    returns (r: seq<seq<Task>>)
    modifies taskLoader
    ensures |r| == |keys|
    ensures forall i :: 0 <= i < |keys| ==> r[i] == Repeat(DirectTasks(table, keys[i]), multiset(UserIds(keys))[keys[i].userId])
    ensures forall i :: 0 <= i < |keys| && NoDup(UserIds(keys)) ==> r[i] == DirectTasks(table, keys[i])
    ensures taskLoader.cache == PrimeAll(old(taskLoader.cache), QueryTasks(table, UserIds(keys), TeamIdUnion(keys)))
  {
    var userIds := UserIds(keys);
    var teamIds := TeamIdUnion(keys);
    var allUsersTasks := QueryTasks(table, userIds, teamIds);
    PrimeTasks(taskLoader, allUsersTasks);
    r := seq(|keys|, k requires 0 <= k < |keys| => TasksForKey(allUsersTasks, keys[k]));
    forall k | 0 <= k < |keys|
      ensures r[k] == Repeat(DirectTasks(table, keys[k]), multiset(userIds)[keys[k].userId])
      ensures NoDup(userIds) ==> r[k] == DirectTasks(table, keys[k])
    {
      BatchedTasksForKey(table, userIds, teamIds, keys[k]);
      if NoDup(userIds) {
        NoDupCount(userIds, keys[k].userId);
        BatchedTasksEqualDirect(table, userIds, teamIds, keys[k]);
      }
    }
  }

  /** `${key.userId}:${key.teamIds.sort().join(':')}` */
  function UserTasksCacheKey(key: UserTasksKey): string {
    SortedKey(key.userId, key.teamIds)
  }

  /** Listing the same teams in another order reaches the same cache entry. */
  lemma UserTasksCacheKeyIgnoresTeamOrder(k1: UserTasksKey, k2: UserTasksKey)
    requires k1.userId == k2.userId
    requires multiset(k1.teamIds) == multiset(k2.teamIds)
    ensures UserTasksCacheKey(k1) == UserTasksCacheKey(k2)
  {
    SortedKeyIgnoresOrder(k1.userId, k1.teamIds, k2.teamIds);
  }

  /** Conversely, keys with different users or different sets of teams get
      different cache keys, as long as user ids hold no colon and team ids are
      non-empty and hold none. */
  lemma UserTasksCacheKeyDistinguishes(k1: UserTasksKey, k2: UserTasksKey)
    requires NoColon(k1.userId) && NoColon(k2.userId)
    requires PlainParts(k1.teamIds) && PlainParts(k2.teamIds)
    ensures UserTasksCacheKey(k1) == UserTasksCacheKey(k2) <==>
            k1.userId == k2.userId && multiset(k1.teamIds) == multiset(k2.teamIds)
  {
    if UserTasksCacheKey(k1) == UserTasksCacheKey(k2) {
      SortedKeyDeterminesIds(k1.userId, k1.teamIds, k2.userId, k2.teamIds);
    }
    if k1.userId == k2.userId && multiset(k1.teamIds) == multiset(k2.teamIds) {
      UserTasksCacheKeyIgnoresTeamOrder(k1, k2);
    }
  }

  /** The `cacheKeyFn` as the source runs it: the key's own teamIds array is
      sorted in place before it is joined. */
  method UserTasksCacheKeyFn(userId: string, teamIds: array<string>) returns (cacheKey: string)
    modifies teamIds
    ensures cacheKey == UserTasksCacheKey(UserTasksKey(userId, old(teamIds[..])))
    ensures teamIds[..] == SortStrings(old(teamIds[..]))
  {
    SortInPlace(teamIds);
    cacheKey := ColonJoin(userId, JoinColon(teamIds[..]));
  }
}
