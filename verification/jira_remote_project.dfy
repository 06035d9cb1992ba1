/** The `jiraRemoteProject` batch resolver: keys `{accessToken, cloudId,
    atlassianProjectId}`; each key asks the Atlassian API for one project with
    its own access token, and a failed request rejects only that key's entry
    (`promiseAllPartial`). */
module JiraRemoteProject {
  import opened Common

  datatype JiraRemoteProjectKey = JiraRemoteProjectKey(accessToken: string, cloudId: string, atlassianProjectId: string)

  /** `new AtlassianServerManager(accessToken).getProject(cloudId, atlassianProjectId)`,
      a network call supplied as a function of the three key fields. */
  type GetProject<P> = (string, string, string) -> Result<P>

  function Fetch<P>(getProject: GetProject<P>, key: JiraRemoteProjectKey): Result<P> {
    getProject(key.accessToken, key.cloudId, key.atlassianProjectId)
  }

  /** The batch function: one settled entry per key, in key order. An entry is
      rejected exactly when its own request failed, with that request's error. */
  function JiraRemoteProjectBatch<P>(keys: seq<JiraRemoteProjectKey>, getProject: GetProject<P>)
    : (r: seq<Settled<P>>)
    ensures |r| == |keys|
    ensures forall i :: 0 <= i < |keys| ==>
              (r[i].Fulfilled? <==> Fetch(getProject, keys[i]).Ok?) &&
              (r[i].Fulfilled? ==> r[i].value == Fetch(getProject, keys[i]).value) &&
              (r[i].Rejected? ==> r[i].reason == Fetch(getProject, keys[i]).error)
  {
    seq(|keys|, i requires 0 <= i < |keys| => Settle(Fetch(getProject, keys[i])))
  }

  /** Failure isolation: a key's entry is what it would be if the key were
      loaded on its own, whatever else is in the batch. */
  lemma JiraRemoteProjectIsolation<P>(keys: seq<JiraRemoteProjectKey>, getProject: GetProject<P>, i: nat)
    requires i < |keys|
    ensures JiraRemoteProjectBatch(keys, getProject)[i] == JiraRemoteProjectBatch([keys[i]], getProject)[0]
  {
    var r, single := JiraRemoteProjectBatch(keys, getProject), JiraRemoteProjectBatch([keys[i]], getProject);
    assert [keys[i]][0] == keys[i];
    match Fetch(getProject, keys[i])
    case Ok(_) =>
    case Err(_) =>
  }

  /** Splitting a batch in two and concatenating the answers changes nothing. */
  lemma JiraRemoteProjectBatchAppend<P>(keys: seq<JiraRemoteProjectKey>, more: seq<JiraRemoteProjectKey>, getProject: GetProject<P>)
    ensures JiraRemoteProjectBatch(keys + more, getProject) ==
            JiraRemoteProjectBatch(keys, getProject) + JiraRemoteProjectBatch(more, getProject)
  {
    var all := keys + more;
    var r := JiraRemoteProjectBatch(all, getProject);
    var left, right := JiraRemoteProjectBatch(keys, getProject), JiraRemoteProjectBatch(more, getProject);
    forall i | 0 <= i < |all|
      ensures r[i] == (left + right)[i]
    {
      if i < |keys| {
        assert all[i] == keys[i];
        JiraRemoteProjectIsolation(all, getProject, i);
        JiraRemoteProjectIsolation(keys, getProject, i);
      } else {
        assert all[i] == more[i - |keys|];
        JiraRemoteProjectIsolation(all, getProject, i);
        JiraRemoteProjectIsolation(more, getProject, i - |keys|);
      }
    }
  }

  /** `${key.atlassianProjectId}:${key.cloudId}` */
  function JiraRemoteProjectCacheKey(key: JiraRemoteProjectKey): string {
    ColonJoin(key.atlassianProjectId, key.cloudId)
  }

  /** The cache key leaves the access token out: two keys that differ only in
      their token share one cache entry, and otherwise the cache key tells keys
      apart whenever cloud ids hold no colon. */
  lemma JiraRemoteProjectCacheKeyIgnoresToken(k1: JiraRemoteProjectKey, k2: JiraRemoteProjectKey)
    requires NoColon(k1.cloudId) && NoColon(k2.cloudId)
    ensures JiraRemoteProjectCacheKey(k1) == JiraRemoteProjectCacheKey(k2) <==>
            k1.cloudId == k2.cloudId && k1.atlassianProjectId == k2.atlassianProjectId
  {
    ColonJoinInjectiveRight(k1.atlassianProjectId, k1.cloudId, k2.atlassianProjectId, k2.cloudId);
  }

  /** Sharing that entry is visible: when the API answers according to the
      token (one user may see the project, another may not), the two keys get
      different answers from the batch function but one cache entry. */
  lemma JiraRemoteProjectSharedEntryDiffers(getProject: GetProject<string>)
    requires getProject("t1", "c", "p") == Ok("project")
    requires getProject("t2", "c", "p") == Err("forbidden")
    ensures var k1 := JiraRemoteProjectKey("t1", "c", "p");
            var k2 := JiraRemoteProjectKey("t2", "c", "p");
            JiraRemoteProjectCacheKey(k1) == JiraRemoteProjectCacheKey(k2) &&
            JiraRemoteProjectBatch([k1, k2], getProject) == [Fulfilled("project"), Rejected("forbidden")]
  {
    var k1 := JiraRemoteProjectKey("t1", "c", "p");
    var k2 := JiraRemoteProjectKey("t2", "c", "p");
    var r := JiraRemoteProjectBatch([k1, k2], getProject);
    assert r[0] == Settle(Fetch(getProject, k1));
    assert r[1] == Settle(Fetch(getProject, k2));
  }
}
