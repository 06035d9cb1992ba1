/** The `meetingSettingsByType` batch resolver: keys `{teamId, meetingType}`;
    the requested team ids are grouped by meeting type, one MeetingSettings
    query is issued per distinct meeting type, and each key then takes the
    first fetched row matching both its team and its meeting type. */
module MeetingSettingsByType {
  import opened Common

  /** `meetingType` holds a `MeetingTypeEnum` value. */
  datatype MeetingSettingsKey = MeetingSettingsKey(teamId: string, meetingType: string)

  /** A row of the MeetingSettings table, reduced to the columns the resolver reads. */
  datatype MeetingSettings = MeetingSettings(id: string, teamId: string, meetingType: string)

  /** The meeting types of the keys, in key order. */
  function KeyTypes(keys: seq<MeetingSettingsKey>): (types: seq<string>)
    ensures |types| == |keys| && forall i :: 0 <= i < |keys| ==> types[i] == keys[i].meetingType
  {
    seq(|keys|, i requires 0 <= i < |keys| => keys[i].meetingType)
  }

  /** The team ids pushed onto `types[meetingType]`: those of the keys of that
      type, in key order. */
  function TeamIdsOfType(keys: seq<MeetingSettingsKey>, meetingType: string): (teamIds: seq<string>)
    ensures |teamIds| <= |keys|
    ensures forall i :: 0 <= i < |keys| && keys[i].meetingType == meetingType ==> keys[i].teamId in teamIds
    ensures forall teamId :: teamId in teamIds ==>
              exists i :: 0 <= i < |keys| && keys[i].meetingType == meetingType && keys[i].teamId == teamId
  {
    if keys == [] then []
    else
      var init := keys[..|keys| - 1];
      var last := keys[|keys| - 1];
      assert forall i :: 0 <= i < |init| ==> init[i] == keys[i];
      TeamIdsOfType(init, meetingType) + (if last.meetingType == meetingType then [last.teamId] else [])
  }

  /** A meeting type no key asks for has no team ids. */
  lemma {:induction false} NoTeamIdsOfAbsentType(keys: seq<MeetingSettingsKey>, meetingType: string)
    requires forall i :: 0 <= i < |keys| ==> keys[i].meetingType != meetingType
    ensures TeamIdsOfType(keys, meetingType) == []
  {
    if keys != [] {
      var init := keys[..|keys| - 1];
      assert forall i :: 0 <= i < |init| ==> init[i] == keys[i];
      NoTeamIdsOfAbsentType(init, meetingType);
    }
  }

  /** One more key appends its team id to its own type's list only. */
  lemma TeamIdsOfTypeStep(keys: seq<MeetingSettingsKey>, i: nat, t: string)
    requires i < |keys|
    ensures TeamIdsOfType(keys[..i + 1], t) ==
            TeamIdsOfType(keys[..i], t) + (if keys[i].meetingType == t then [keys[i].teamId] else [])
  {
    assert keys[..i + 1][..i] == keys[..i];
  }

  /** A type not yet in the order has no team ids yet. */
  lemma UnseenTypeHasNoTeamIds(keys: seq<MeetingSettingsKey>, x: string)
    requires x !in Dedup(KeyTypes(keys))
    ensures TeamIdsOfType(keys, x) == []
  {
    forall j | 0 <= j < |keys|
      ensures keys[j].meetingType != x
    {
      assert KeyTypes(keys)[j] in KeyTypes(keys);
    }
    NoTeamIdsOfAbsentType(keys, x);
  }

  /** The `types` object after one more key: the key's type, if new, is added
      last, and the key's team id is pushed onto its type's list. */
  function AddKey(order: seq<string>, types: map<string, seq<string>>, key: MeetingSettingsKey)
    : (seq<string>, map<string, seq<string>>)
  {
    var group := if key.meetingType in types then types[key.meetingType] else [];
    (if key.meetingType in types then order else order + [key.meetingType],
     types[key.meetingType := group + [key.teamId]])
  }

  /** The `types` object the `forEach` builds from `keys`, with its entries
      in insertion order (the order `Object.entries` lists them in). */
  function GroupByType(keys: seq<MeetingSettingsKey>): (seq<string>, map<string, seq<string>>)
  {
    if keys == [] then ([], map[])
    else
      var g := GroupByType(keys[..|keys| - 1]);
      AddKey(g.0, g.1, keys[|keys| - 1])
  }

  /** One more key adds its type at the end of the type order, unless it was
      already there. */
  lemma TypeOrderStep(keys: seq<MeetingSettingsKey>, i: nat, order: seq<string>, types: map<string, seq<string>>)
    requires i < |keys|
    requires order == Dedup(KeyTypes(keys[..i]))
    requires forall t :: t in types <==> t in order
    ensures AddKey(order, types, keys[i]).0 == Dedup(KeyTypes(keys[..i + 1]))
  {
    var prefix := keys[..i + 1];
    assert KeyTypes(prefix)[..i] == KeyTypes(keys[..i]);
  }

  /** One more key appends its team id to its own type's list, starting that
      list if the type is new, and leaves the other lists alone. */
  lemma TypeGroupsStep(keys: seq<MeetingSettingsKey>, i: nat, order: seq<string>, types: map<string, seq<string>>)
    requires i < |keys|
    requires order == Dedup(KeyTypes(keys[..i]))
    requires forall t :: t in types <==> t in order
    requires forall t :: t in types ==> types[t] == TeamIdsOfType(keys[..i], t)
    ensures var types' := AddKey(order, types, keys[i]).1;
            forall t :: t in types' ==> types'[t] == TeamIdsOfType(keys[..i + 1], t)
  {
    var x := keys[i].meetingType;
    var types' := AddKey(order, types, keys[i]).1;
    if x !in types {
      UnseenTypeHasNoTeamIds(keys[..i], x);
    }
    forall t | t in types'
      ensures types'[t] == TeamIdsOfType(keys[..i + 1], t)
    {
      TeamIdsOfTypeStep(keys, i, t);
    }
  }

  /** Adding a key keeps the map and the order holding the same types. */
  lemma TypeKeysStep(order: seq<string>, types: map<string, seq<string>>, key: MeetingSettingsKey)
    requires forall t :: t in types <==> t in order
    ensures var g := AddKey(order, types, key);
            forall t :: t in g.1 <==> t in g.0
  {
  }

  /** The `types` object lists every distinct meeting type once, in order of
      first request, and holds under each exactly the team ids of the keys of
      that type, in key order. */
  lemma {:induction false} GroupByTypeSpec(keys: seq<MeetingSettingsKey>)
    ensures GroupByType(keys).0 == Dedup(KeyTypes(keys))
    ensures forall t :: t in GroupByType(keys).1 <==> t in GroupByType(keys).0
    ensures forall t :: t in GroupByType(keys).1 ==> GroupByType(keys).1[t] == TeamIdsOfType(keys, t)
  {
    if keys == [] {
      assert KeyTypes(keys) == [];
    } else {
      var i := |keys| - 1;
      assert keys[..i + 1] == keys;
      GroupByTypeSpec(keys[..i]);
      var g := GroupByType(keys[..i]);
      TypeOrderStep(keys, i, g.0, g.1);
      TypeGroupsStep(keys, i, g.0, g.1);
      TypeKeysStep(g.0, g.1, keys[i]);
    }
  }

  /** The `forEach` over the keys that builds the `types` object. */
  method GroupTeamIdsByType(keys: seq<MeetingSettingsKey>) returns (order: seq<string>, types: map<string, seq<string>>)
    ensures order == Dedup(KeyTypes(keys))
    ensures forall t :: t in types <==> t in order
    ensures forall t :: t in types ==> types[t] == TeamIdsOfType(keys, t)
  {
    order, types := [], map[];
    var i := 0;
    while i < |keys|
      invariant 0 <= i <= |keys|
      invariant (order, types) == GroupByType(keys[..i])
    {
      assert keys[..i + 1][..i] == keys[..i];
      var key := keys[i];
      var group := if key.meetingType in types then types[key.meetingType] else [];
      if key.meetingType !in types {
        order := order + [key.meetingType];
      }
      types := types[key.meetingType := group + [key.teamId]];
      i := i + 1;
    }
    assert keys[..i] == keys;
    GroupByTypeSpec(keys);
  }

  /** One team's rows of the MeetingSettings table, in table order. */
  function SettingsOfTeam(table: seq<MeetingSettings>, teamId: string): (rows: seq<MeetingSettings>)
    ensures forall s :: s in rows <==> s in table && s.teamId == teamId
  {
    if table == [] then []
    else
      assert table == [table[0]] + table[1..];
      (if table[0].teamId == teamId then [table[0]] else []) + SettingsOfTeam(table[1..], teamId)
  }

  /** `getAll(r.args(teamIds), {index: 'teamId'})`: the rows of each listed
      team in turn, so a team listed twice has its rows returned twice. */
  function GetAllByTeam(table: seq<MeetingSettings>, teamIds: seq<string>): (rows: seq<MeetingSettings>)
    ensures forall s :: s in rows <==> s in table && s.teamId in teamIds
  {
    if teamIds == [] then []
    else
      assert teamIds == [teamIds[0]] + teamIds[1..];
      SettingsOfTeam(table, teamIds[0]) + GetAllByTeam(table, teamIds[1..])
  }

  /** `.filter({meetingType})` */
  function OfMeetingType(rows: seq<MeetingSettings>, meetingType: string): (kept: seq<MeetingSettings>)
    ensures forall s :: s in kept <==> s in rows && s.meetingType == meetingType
  {
    if rows == [] then []
    else
      assert rows == [rows[0]] + rows[1..];
      (if rows[0].meetingType == meetingType then [rows[0]] else []) + OfMeetingType(rows[1..], meetingType)
  }

  lemma {:induction false} OfMeetingTypeAppend(a: seq<MeetingSettings>, b: seq<MeetingSettings>, meetingType: string)
    ensures OfMeetingType(a + b, meetingType) == OfMeetingType(a, meetingType) + OfMeetingType(b, meetingType)
  {
    if a == [] {
      assert a + b == b;
    } else {
      assert (a + b)[0] == a[0] && (a + b)[1..] == a[1..] + b;
      OfMeetingTypeAppend(a[1..], b, meetingType);
    }
  }

  /** One query: `getAll(r.args(teamIds), {index: 'teamId'}).filter({meetingType})`,
      the rows of the given teams and meeting type. */
  function QuerySettings(table: seq<MeetingSettings>, teamIds: seq<string>, meetingType: string)
    : (rows: seq<MeetingSettings>)
    ensures forall s :: s in rows <==> s in table && s.teamId in teamIds && s.meetingType == meetingType
  {
    OfMeetingType(GetAllByTeam(table, teamIds), meetingType)
  }

  /** `resultsByType.flat()`: the answers of the queries, one per entry of `types`, in entry order. */
  function FetchByType(table: seq<MeetingSettings>, order: seq<string>, types: map<string, seq<string>>)
    : seq<MeetingSettings>
    requires forall t :: t in order ==> t in types
  {
    if order == [] then []
    else QuerySettings(table, types[order[0]], order[0]) + FetchByType(table, order[1..], types)
  }

  /** `docs.find((doc) => doc.teamId === teamId && doc.meetingType === meetingType)`:
      the first matching row, `None` exactly when there is none. */
  function FindSetting(docs: seq<MeetingSettings>, teamId: string, meetingType: string)
    : (found: Option<MeetingSettings>)
    ensures found.Some? ==> found.value in docs && found.value.teamId == teamId && found.value.meetingType == meetingType
    ensures found.None? <==> forall d :: d in docs ==> !(d.teamId == teamId && d.meetingType == meetingType)
  {
    if docs == [] then None
    else if docs[0].teamId == teamId && docs[0].meetingType == meetingType then Some(docs[0])
    else
      assert docs == [docs[0]] + docs[1..];
      FindSetting(docs[1..], teamId, meetingType)
  }

  /** Searching a concatenation searches the first part, then the second. */
  lemma {:induction false} FindSettingAppend(a: seq<MeetingSettings>, b: seq<MeetingSettings>, teamId: string, meetingType: string)
    ensures FindSetting(a + b, teamId, meetingType) ==
            if FindSetting(a, teamId, meetingType).Some? then FindSetting(a, teamId, meetingType)
            else FindSetting(b, teamId, meetingType)
  {
    if a != [] {
      assert (a + b)[0] == a[0] && (a + b)[1..] == a[1..] + b;
      FindSettingAppend(a[1..], b, teamId, meetingType);
    } else {
      assert a + b == b;
    }
  }

  /** The rows fetched for a team hold the team's first row of a meeting type
      first among them. */
  lemma {:induction false} FindSettingInTeamRows(table: seq<MeetingSettings>, teamId: string, meetingType: string)
    ensures FindSetting(OfMeetingType(SettingsOfTeam(table, teamId), meetingType), teamId, meetingType) ==
            FindSetting(table, teamId, meetingType)
  {
    if table != [] {
      var s, rest := table[0], table[1..];
      FindSettingInTeamRows(rest, teamId, meetingType);
      var teamRest := SettingsOfTeam(rest, teamId);
      var tail := OfMeetingType(teamRest, meetingType);
      if s.teamId != teamId {
        assert SettingsOfTeam(table, teamId) == teamRest;
      } else {
        assert SettingsOfTeam(table, teamId) == [s] + teamRest;
        assert OfMeetingType([s] + teamRest, meetingType) ==
               (if s.meetingType == meetingType then [s] else []) + tail;
        if s.meetingType == meetingType {
          assert ([s] + tail)[0] == s;
        } else {
          assert [] + tail == tail;
        }
      }
    }
  }

  /** Narrowing the table to the requested teams and the key's meeting type
      does not change which row the key finds first. */
  lemma {:induction false} FindSettingInQuery(table: seq<MeetingSettings>, teamIds: seq<string>, teamId: string, meetingType: string)
    requires teamId in teamIds
    ensures FindSetting(QuerySettings(table, teamIds, meetingType), teamId, meetingType) ==
            FindSetting(table, teamId, meetingType)
  {
    var first := OfMeetingType(SettingsOfTeam(table, teamIds[0]), meetingType);
    var rest := QuerySettings(table, teamIds[1..], meetingType);
    assert GetAllByTeam(table, teamIds) == SettingsOfTeam(table, teamIds[0]) + GetAllByTeam(table, teamIds[1..]);
    OfMeetingTypeAppend(SettingsOfTeam(table, teamIds[0]), GetAllByTeam(table, teamIds[1..]), meetingType);
    FindSettingAppend(first, rest, teamId, meetingType);
    if teamIds[0] == teamId {
      FindSettingInTeamRows(table, teamId, meetingType);
    } else {
      assert FindSetting(first, teamId, meetingType).None?;
      assert teamId in teamIds[1..];
      FindSettingInQuery(table, teamIds[1..], teamId, meetingType);
    }
  }

  /** A key finds in the fetched rows what it would find in the whole table,
      as long as its type was queried once, with its team among the team ids. */
  lemma {:induction false} FindSettingInFetched(
    table: seq<MeetingSettings>, order: seq<string>, types: map<string, seq<string>>, teamId: string, meetingType: string)
    requires forall t :: t in order ==> t in types
    requires NoDup(order)
    requires meetingType in order && teamId in types[meetingType]
    ensures FindSetting(FetchByType(table, order, types), teamId, meetingType) == FindSetting(table, teamId, meetingType)
  {
    var t := order[0];
    var head := QuerySettings(table, types[t], t);
    FindSettingAppend(head, FetchByType(table, order[1..], types), teamId, meetingType);
    if t == meetingType {
      FindSettingInQuery(table, types[t], teamId, meetingType);
      assert meetingType !in order[1..];
      FindSettingOfOtherTypes(table, order[1..], types, teamId, meetingType);
    } else {
      assert FindSetting(head, teamId, meetingType).None?;
      assert meetingType in order[1..];
      assert NoDup(order[1..]);
      FindSettingInFetched(table, order[1..], types, teamId, meetingType);
    }
  }

  /** Rows fetched for other meeting types never match a key. */
  lemma {:induction false} FindSettingOfOtherTypes(
    table: seq<MeetingSettings>, order: seq<string>, types: map<string, seq<string>>, teamId: string, meetingType: string)
    requires forall t :: t in order ==> t in types
    requires meetingType !in order
    ensures FindSetting(FetchByType(table, order, types), teamId, meetingType) == None
  {
    if order != [] {
      var t := order[0];
      var head := QuerySettings(table, types[t], t);
      FindSettingAppend(head, FetchByType(table, order[1..], types), teamId, meetingType);
      assert FindSetting(head, teamId, meetingType).None?;
      FindSettingOfOtherTypes(table, order[1..], types, teamId, meetingType);
    }
  }

  /** The batch function. It issues one query per distinct requested meeting
      type, in order of first request, each for exactly the team ids requested
      with that type; entry i is the first row of the table matching both the
      key's team and meeting type (`None` when there is none), just as if the
      key had been looked up on its own. */
  method MeetingSettingsBatch(keys: seq<MeetingSettingsKey>, table: seq<MeetingSettings>)
    returns (r: seq<Option<MeetingSettings>>, queries: seq<(string, seq<string>)>)
    ensures |r| == |keys|
    ensures forall i :: 0 <= i < |keys| ==> r[i] == FindSetting(table, keys[i].teamId, keys[i].meetingType)
    ensures |queries| == |Dedup(KeyTypes(keys))|
    ensures forall j :: 0 <= j < |queries| ==>
              queries[j].0 == Dedup(KeyTypes(keys))[j] && queries[j].1 == TeamIdsOfType(keys, queries[j].0)
  {
    var order, types := GroupTeamIdsByType(keys);
    queries := seq(|order|, j requires 0 <= j < |order| => (order[j], types[order[j]]));
    var docs := FetchByType(table, order, types);
    r := seq(|keys|, i requires 0 <= i < |keys| => FindSetting(docs, keys[i].teamId, keys[i].meetingType));
    forall i | 0 <= i < |keys|
      ensures r[i] == FindSetting(table, keys[i].teamId, keys[i].meetingType)
    {
      KeyFindsInFetched(keys, table, order, types, i);
    }
  }

  /** Each key finds in the rows fetched for the grouped keys what it would
      find in the whole table. */
  lemma KeyFindsInFetched(
    keys: seq<MeetingSettingsKey>, table: seq<MeetingSettings>, order: seq<string>, types: map<string, seq<string>>, i: nat)
    requires i < |keys|
    requires order == Dedup(KeyTypes(keys))
    requires forall t :: t in types <==> t in order
    requires forall t :: t in types ==> types[t] == TeamIdsOfType(keys, t)
    ensures FindSetting(FetchByType(table, order, types), keys[i].teamId, keys[i].meetingType) ==
            FindSetting(table, keys[i].teamId, keys[i].meetingType)
  {
    var key := keys[i];
    assert KeyTypes(keys)[i] == key.meetingType;
    assert key.meetingType in order;
    assert key.teamId in types[key.meetingType];
    FindSettingInFetched(table, order, types, key.teamId, key.meetingType);
  }

  /** `${key.teamId}:${key.meetingType}` */
  function MeetingSettingsCacheKey(key: MeetingSettingsKey): string {
    ColonJoin(key.teamId, key.meetingType)
  }

  /** Two keys share a cache entry exactly when they are the same key, as long
      as meeting type values hold no colon. */
  lemma MeetingSettingsCacheKeyInjective(k1: MeetingSettingsKey, k2: MeetingSettingsKey)
    requires NoColon(k1.meetingType) && NoColon(k2.meetingType)
    ensures MeetingSettingsCacheKey(k1) == MeetingSettingsCacheKey(k2) <==> k1 == k2
  {
    ColonJoinInjectiveRight(k1.teamId, k1.meetingType, k2.teamId, k2.meetingType);
  }
}
