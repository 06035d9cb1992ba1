/** The `reactables` batch resolver: keys `{id, type}` where the type says
    whether the id names a comment or a retrospective reflection. */
module Reactables {
  import opened Common
  import opened TypedBatch

  /** `ReactableEnum`. */
  datatype ReactableType = Comment | Reflection

  /** The enum's string value, as it appears in a cache key. */
  function ReactableTypeName(t: ReactableType): (name: string)
    ensures NoColon(name)
  {
    match t
    case Comment => "COMMENT"
    case Reflection => "REFLECTION"
  }

  datatype ReactablesKey = ReactablesKey(id: string, kind: ReactableType)

  /** The two per-entity sub-loaders a reactable is read through. */
  datatype SubLoaders = SubLoaders(comments: Table, retroReflections: Table)

  /** `reactableLoaders`: COMMENT is read through `comments`, REFLECTION through `retroReflections`. */
  function ReactableLoaders(l: SubLoaders): seq<(ReactableType, Table)> {
    [(Comment, l.comments), (Reflection, l.retroReflections)]
  }

  function TableFor(l: SubLoaders, t: ReactableType): Table {
    match t
    case Comment => l.comments
    case Reflection => l.retroReflections
  }

  function AsTyped(keys: seq<ReactablesKey>): (typed: seq<TypedKey<ReactableType>>)
    ensures |typed| == |keys|
    ensures forall i :: 0 <= i < |keys| ==> typed[i].id == keys[i].id && typed[i].kind == keys[i].kind
  {
    seq(|keys|, i requires 0 <= i < |keys| => TypedKey(keys[i].id, keys[i].kind))
  }

  /** The ids the sub-loader for type `t` is asked for. */
  function SubLoaderIds(keys: seq<ReactablesKey>, t: ReactableType): seq<string> {
    IdsOfType(AsTyped(keys), t)
  }

  /** The batch function: one entry per key, each entry a record with the key's id or `None`. */
  function ReactablesBatch(keys: seq<ReactablesKey>, l: SubLoaders): (r: seq<Option<Record>>)
    ensures |r| == |keys|
    ensures forall i :: 0 <= i < |keys| && r[i].Some? ==> r[i].value.id == keys[i].id
  {
    Batch(AsTyped(keys), ReactableLoaders(l))
  }

  /** Each key's id is asked of the sub-loader for its type, and the two
      sub-loaders together are asked for one id per key. */
  lemma ReactablesSubLoaderIds(keys: seq<ReactablesKey>)
    ensures |SubLoaderIds(keys, Comment)| + |SubLoaderIds(keys, Reflection)| == |keys|
    ensures forall i :: 0 <= i < |keys| ==> keys[i].id in SubLoaderIds(keys, keys[i].kind)
  {
    IdsOfTwoTypesPartition(AsTyped(keys), Comment, Reflection);
  }

  /** Each sub-loader is asked only for the ids of keys of its own type. */
  lemma ReactablesSubLoaderIdOrigin(keys: seq<ReactablesKey>, t: ReactableType, id: string) returns (i: nat)
    requires id in SubLoaderIds(keys, t)
    ensures i < |keys| && keys[i].kind == t && keys[i].id == id
  {
    i := IdsOfTypeOrigin(AsTyped(keys), t, id);
  }

  /** Sub-loader ids follow key order: a batch split in two asks for the ids
      of the first part and then those of the second. */
  lemma ReactablesSubLoaderIdsInKeyOrder(keys: seq<ReactablesKey>, more: seq<ReactablesKey>, t: ReactableType)
    ensures SubLoaderIds(keys + more, t) == SubLoaderIds(keys, t) + SubLoaderIds(more, t)
  {
    assert AsTyped(keys + more) == AsTyped(keys) + AsTyped(more);
    IdsOfTypeAppend(AsTyped(keys), AsTyped(more), t);
  }

  /** Entry i is the record stored under `keys[i].id` in the table of the key's
      own type, or `None` when that table has no such row, as long as no id is
      requested under both types in the same batch. */
  lemma ReactablesBatchEntry(keys: seq<ReactablesKey>, l: SubLoaders, i: nat)
    requires WellKeyed(l.comments) && WellKeyed(l.retroReflections)
    requires forall i, i' :: 0 <= i < |keys| && 0 <= i' < |keys| && keys[i].id == keys[i'].id ==>
               keys[i].kind == keys[i'].kind
    requires i < |keys|
    ensures ReactablesBatch(keys, l)[i] == Lookup(TableFor(l, keys[i].kind), keys[i].id)
  {
    var typed := AsTyped(keys);
    var loaders := ReactableLoaders(l);
    assert ConsistentKinds(typed);
    var j := if keys[i].kind == Comment then 0 else 1;
    BatchEntry(typed, loaders, i, j);
  }

  /** Re-keying by id alone ignores the type: when one batch asks for the same
      id as a comment and as a reflection, the reflection key receives the comment. */
  lemma ReactablesSharedIdCrossesTypes(c: Record)
    requires c.id == "x"
    ensures var keys := [ReactablesKey("x", Reflection), ReactablesKey("x", Comment)];
            var l := SubLoaders(map["x" := c], map[]);
            Lookup(TableFor(l, keys[0].kind), "x") == None &&
            ReactablesBatch(keys, l)[0] == Some(c)
  {
    var keys := [ReactablesKey("x", Reflection), ReactablesKey("x", Comment)];
    var l := SubLoaders(map["x" := c], map[]);
    var typed := AsTyped(keys);
    assert typed == [TypedKey("x", Reflection), TypedKey("x", Comment)];
    var commentIds := IdsOfType(typed, Comment);
    assert commentIds == ["x"] by {
      assert IdsOfType(typed[1..][1..], Comment) == [];
      assert IdsOfType(typed[1..], Comment) == ["x"];
    }
    var reflectionIds := IdsOfType(typed, Reflection);
    assert reflectionIds == ["x"] by {
      assert IdsOfType(typed[1..][1..], Reflection) == [];
      assert IdsOfType(typed[1..], Reflection) == [];
    }
    var loaders := ReactableLoaders(l);
    assert LoadMany(loaders[0].1, commentIds) == [Some(c)];
    assert LoadMany(loaders[1].1, reflectionIds) == [None];
    var fetched := FetchAll(typed, loaders);
    assert fetched == [Some(c), None] by {
      assert loaders[1..][1..] == [];
      assert FetchAll(typed, loaders[1..]) == [None];
    }
    assert FindById(fetched, "x") == Some(c);
  }

  /** `${key.id}:${key.type}` */
  function ReactablesCacheKey(key: ReactablesKey): string {
    ColonJoin(key.id, ReactableTypeName(key.kind))
  }

  /** Two keys share a cache entry exactly when they are the same key. */
  lemma ReactablesCacheKeyInjective(k1: ReactablesKey, k2: ReactablesKey)
    ensures ReactablesCacheKey(k1) == ReactablesCacheKey(k2) <==> k1 == k2
  {
    ColonJoinInjectiveRight(k1.id, ReactableTypeName(k1.kind), k2.id, ReactableTypeName(k2.kind));
  }
}
