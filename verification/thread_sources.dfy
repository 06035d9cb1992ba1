/** The `threadSources` batch resolver: keys `{sourceId, type}` where the type
    says whether the id names an agenda item or a retrospective reflection group. */
module ThreadSources {
  import opened Common
  import opened TypedBatch

  /** `ThreadSourceEnum`. */
  datatype ThreadSourceType = AgendaItem | ReflectionGroup

  /** The enum's string value, as it appears in a cache key. */
  function ThreadSourceTypeName(t: ThreadSourceType): (name: string)
    ensures NoColon(name)
  {
    match t
    case AgendaItem => "AGENDA_ITEM"
    case ReflectionGroup => "REFLECTION_GROUP"
  }

  datatype ThreadSourceKey = ThreadSourceKey(sourceId: string, kind: ThreadSourceType)

  /** The two per-entity sub-loaders a thread source is read through. */
  datatype SubLoaders = SubLoaders(agendaItems: Table, retroReflectionGroups: Table)

  /** `threadableLoaders`: AGENDA_ITEM is read through `agendaItems`,
      REFLECTION_GROUP through `retroReflectionGroups`. */
  function ThreadableLoaders(l: SubLoaders): seq<(ThreadSourceType, Table)> {
    [(AgendaItem, l.agendaItems), (ReflectionGroup, l.retroReflectionGroups)]
  }

  function TableFor(l: SubLoaders, t: ThreadSourceType): Table {
    match t
    case AgendaItem => l.agendaItems
    case ReflectionGroup => l.retroReflectionGroups
  }

  function AsTyped(keys: seq<ThreadSourceKey>): (typed: seq<TypedKey<ThreadSourceType>>)
    ensures |typed| == |keys|
    ensures forall i :: 0 <= i < |keys| ==> typed[i].id == keys[i].sourceId && typed[i].kind == keys[i].kind
  {
    seq(|keys|, i requires 0 <= i < |keys| => TypedKey(keys[i].sourceId, keys[i].kind))
  }

  /** The ids the sub-loader for type `t` is asked for. */
  function SubLoaderIds(keys: seq<ThreadSourceKey>, t: ThreadSourceType): seq<string> {
    IdsOfType(AsTyped(keys), t)
  }

  /** The batch function: one entry per key, each entry a record with the key's sourceId or `None`. */
  function ThreadSourcesBatch(keys: seq<ThreadSourceKey>, l: SubLoaders): (r: seq<Option<Record>>)
    ensures |r| == |keys|
    ensures forall i :: 0 <= i < |keys| && r[i].Some? ==> r[i].value.id == keys[i].sourceId
  {
    Batch(AsTyped(keys), ThreadableLoaders(l))
  }

  /** Each key's sourceId is asked of the sub-loader for its type, and the two
      sub-loaders together are asked for one id per key. */
  lemma ThreadSourcesSubLoaderIds(keys: seq<ThreadSourceKey>)
    ensures |SubLoaderIds(keys, AgendaItem)| + |SubLoaderIds(keys, ReflectionGroup)| == |keys|
    ensures forall i :: 0 <= i < |keys| ==> keys[i].sourceId in SubLoaderIds(keys, keys[i].kind)
  {
    IdsOfTwoTypesPartition(AsTyped(keys), AgendaItem, ReflectionGroup);
  }

  /** Each sub-loader is asked only for the sourceIds of keys of its own type. */
  lemma ThreadSourcesSubLoaderIdOrigin(keys: seq<ThreadSourceKey>, t: ThreadSourceType, id: string) returns (i: nat)
    requires id in SubLoaderIds(keys, t)
    ensures i < |keys| && keys[i].kind == t && keys[i].sourceId == id
  {
    i := IdsOfTypeOrigin(AsTyped(keys), t, id);
  }

  /** Sub-loader ids follow key order: a batch split in two asks for the ids
      of the first part and then those of the second. */
  lemma ThreadSourcesSubLoaderIdsInKeyOrder(keys: seq<ThreadSourceKey>, more: seq<ThreadSourceKey>, t: ThreadSourceType)
    ensures SubLoaderIds(keys + more, t) == SubLoaderIds(keys, t) + SubLoaderIds(more, t)
  {
    assert AsTyped(keys + more) == AsTyped(keys) + AsTyped(more);
    IdsOfTypeAppend(AsTyped(keys), AsTyped(more), t);
  }

  /** Entry i is the record stored under `keys[i].sourceId` in the table of the
      key's own type, or `None` when that table has no such row, as long as no
      id is requested under both types in the same batch. */
  lemma ThreadSourcesBatchEntry(keys: seq<ThreadSourceKey>, l: SubLoaders, i: nat)
    requires WellKeyed(l.agendaItems) && WellKeyed(l.retroReflectionGroups)
    requires forall i, i' :: 0 <= i < |keys| && 0 <= i' < |keys| && keys[i].sourceId == keys[i'].sourceId ==>
               keys[i].kind == keys[i'].kind
    requires i < |keys|
    ensures ThreadSourcesBatch(keys, l)[i] == Lookup(TableFor(l, keys[i].kind), keys[i].sourceId)
  {
    var typed := AsTyped(keys);
    var loaders := ThreadableLoaders(l);
    assert ConsistentKinds(typed);
    var j := if keys[i].kind == AgendaItem then 0 else 1;
    BatchEntry(typed, loaders, i, j);
  }

  /** `${key.sourceId}:${key.type}` */
  function ThreadSourcesCacheKey(key: ThreadSourceKey): string {
    ColonJoin(key.sourceId, ThreadSourceTypeName(key.kind))
  }

  /** Two keys share a cache entry exactly when they are the same key. */
  lemma ThreadSourcesCacheKeyInjective(k1: ThreadSourceKey, k2: ThreadSourceKey)
    ensures ThreadSourcesCacheKey(k1) == ThreadSourcesCacheKey(k2) <==> k1 == k2
  {
    ColonJoinInjectiveRight(k1.sourceId, ThreadSourceTypeName(k1.kind), k2.sourceId, ThreadSourceTypeName(k2.kind));
  }
}
