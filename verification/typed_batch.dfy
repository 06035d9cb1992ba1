/** The shape shared by the `reactables` and `threadSources` resolvers: keys
    carry an id and a type, each type has its own sub-loader, every sub-loader
    is asked for the ids of its type, the answers are concatenated and then
    re-aligned with the keys by id (`normalizeRethinkDbResults`). */
module TypedBatch {
  import opened Common

  /** A stored document: its primary key and its other columns. */
  datatype Record = Record(id: string, columns: map<string, string>)

  /** A table reachable through a sub-loader, by primary key. */
  type Table = map<string, Record>

  predicate WellKeyed(t: Table) {
    forall k :: k in t ==> t[k].id == k
  }

  function Lookup(t: Table, id: string): Option<Record> {
    if id in t then Some(t[id]) else None
  }

  /** A batch key: the id to load and the type that picks its sub-loader. */
  datatype TypedKey<T> = TypedKey(id: string, kind: T)

  /** `keys.filter((key) => key.type === kind).map(({id}) => id)` */
  function IdsOfType<T(==)>(keys: seq<TypedKey<T>>, kind: T): (ids: seq<string>)
    ensures |ids| <= |keys|
    ensures forall i :: 0 <= i < |keys| && keys[i].kind == kind ==> keys[i].id in ids
  {
    if keys == [] then []
    else
      assert forall i :: 1 <= i < |keys| ==> keys[i] == keys[1..][i - 1];
      (if keys[0].kind == kind then [keys[0].id] else []) + IdsOfType(keys[1..], kind)
  }

  /** Only ids of keys of the type are asked for: each comes from such a key. */
  lemma {:induction false} IdsOfTypeOrigin<T>(keys: seq<TypedKey<T>>, kind: T, id: string) returns (i: nat)
    requires id in IdsOfType(keys, kind)
    ensures i < |keys| && keys[i].kind == kind && keys[i].id == id
  {
    if keys[0].kind == kind && keys[0].id == id {
      i := 0;
    } else {
      var i' := IdsOfTypeOrigin(keys[1..], kind, id);
      i := i' + 1;
    }
  }

  /** The filter keeps key order: the ids asked of a sub-loader for a batch
      are those for its first part followed by those for the rest. */
  lemma {:induction false} IdsOfTypeAppend<T>(keys: seq<TypedKey<T>>, more: seq<TypedKey<T>>, kind: T)
    ensures IdsOfType(keys + more, kind) == IdsOfType(keys, kind) + IdsOfType(more, kind)
  {
    if keys != [] {
      var all := keys + more;
      assert all[0] == keys[0];
      assert all[1..] == keys[1..] + more;
      IdsOfTypeAppend(keys[1..], more, kind);
      var head := if keys[0].kind == kind then [keys[0].id] else [];
      assert IdsOfType(all, kind) == head + IdsOfType(all[1..], kind);
      assert IdsOfType(keys, kind) == head + IdsOfType(keys[1..], kind);
    } else {
      assert keys + more == more;
    }
  }

  /** With two types covering every key, each key's id goes to exactly one of the two sub-loaders. */
  lemma {:induction false} IdsOfTwoTypesPartition<T>(keys: seq<TypedKey<T>>, k1: T, k2: T)
    requires k1 != k2
    requires forall i :: 0 <= i < |keys| ==> keys[i].kind == k1 || keys[i].kind == k2
    ensures |IdsOfType(keys, k1)| + |IdsOfType(keys, k2)| == |keys|
  {
    if keys != [] {
      assert forall i :: 0 <= i < |keys[1..]| ==> keys[1..][i] == keys[i + 1];
      IdsOfTwoTypesPartition(keys[1..], k1, k2);
    }
  }

  /** `keys.map(({id}) => id)` */
  function KeyIds<T>(keys: seq<TypedKey<T>>): (ids: seq<string>)
    ensures |ids| == |keys| && forall i :: 0 <= i < |keys| ==> ids[i] == keys[i].id
  {
    seq(|keys|, i requires 0 <= i < |keys| => keys[i].id)
  }

  /** A sub-loader's `loadMany(ids)`: one entry per id, missing rows as `None`. */
  function LoadMany(t: Table, ids: seq<string>): seq<Option<Record>> {
    seq(|ids|, i requires 0 <= i < |ids| => Lookup(t, ids[i]))
  }

  /** A fetched record carrying `id`, if there is one. */
  function FindById(docs: seq<Option<Record>>, id: string): (r: Option<Record>)
    ensures r.Some? ==> r.value.id == id && r in docs
    ensures r.None? ==> forall k :: 0 <= k < |docs| && docs[k].Some? ==> docs[k].value.id != id
  {
    if docs == [] then None
    else if docs[0].Some? && docs[0].value.id == id then docs[0]
    else
      var r := FindById(docs[1..], id);
      assert forall k :: 1 <= k < |docs| ==> docs[k] == docs[1..][k - 1];
      r
  }

  /** `normalizeRethinkDbResults(ids, docs)`: the fetched records re-aligned with
      the requested ids; entry i is a fetched record whose id is ids[i], or `None`
      exactly when no fetched record has that id. */
  function NormalizeById(ids: seq<string>, docs: seq<Option<Record>>): (r: seq<Option<Record>>)
    ensures |r| == |ids|
    ensures forall i :: 0 <= i < |ids| && r[i].Some? ==> r[i].value.id == ids[i] && r[i] in docs
    ensures forall i :: 0 <= i < |ids| ==>
              (r[i].None? <==> forall k :: 0 <= k < |docs| && docs[k].Some? ==> docs[k].value.id != ids[i])
  {
    seq(|ids|, i requires 0 <= i < |ids| => FindById(docs, ids[i]))
  }

  /** `(await Promise.all(loaders.map(...))).flat()`: every sub-loader asked for
      the ids of its own type, the answers concatenated in loader order. */
  function FetchAll<T(==)>(keys: seq<TypedKey<T>>, loaders: seq<(T, Table)>): seq<Option<Record>> {
    if loaders == [] then []
    else LoadMany(loaders[0].1, IdsOfType(keys, loaders[0].0)) + FetchAll(keys, loaders[1..])
  }

  /** The batch function: one entry per key, in key order. */
  function Batch<T(==)>(keys: seq<TypedKey<T>>, loaders: seq<(T, Table)>): (r: seq<Option<Record>>)
    ensures |r| == |keys|
    ensures forall i :: 0 <= i < |keys| && r[i].Some? ==> r[i].value.id == keys[i].id
  {
    NormalizeById(KeyIds(keys), FetchAll(keys, loaders))
  }

  predicate AllWellKeyed<T>(loaders: seq<(T, Table)>) {
    forall j :: 0 <= j < |loaders| ==> WellKeyed(loaders[j].1)
  }

  /** Each type has at most one sub-loader. */
  predicate DistinctKinds<T(==)>(loaders: seq<(T, Table)>) {
    forall j, j' :: 0 <= j < j' < |loaders| ==> loaders[j].0 != loaders[j'].0
  }

  /** No id is asked for under two different types in one batch. */
  predicate ConsistentKinds<T(==)>(keys: seq<TypedKey<T>>) {
    forall i, i' :: 0 <= i < |keys| && 0 <= i' < |keys| && keys[i].id == keys[i'].id ==>
      keys[i].kind == keys[i'].kind
  }

  /** A record the sub-loader for its type holds, under an id of that type, is fetched. */
  lemma {:induction false} FetchedWhenStored<T>(keys: seq<TypedKey<T>>, loaders: seq<(T, Table)>, j: nat, id: string)
    requires j < |loaders|
    requires id in IdsOfType(keys, loaders[j].0) && id in loaders[j].1
    ensures Some(loaders[j].1[id]) in FetchAll(keys, loaders)
  {
    var head := LoadMany(loaders[0].1, IdsOfType(keys, loaders[0].0));
    if j == 0 {
      var ids := IdsOfType(keys, loaders[0].0);
      var k :| 0 <= k < |ids| && ids[k] == id;
      assert head[k] == Some(loaders[0].1[id]);
    } else {
      FetchedWhenStored(keys, loaders[1..], j - 1, id);
    }
  }

  /** Every fetched record comes from the sub-loader of some type, under an id asked of it. */
  lemma {:induction false} FetchedOrigin<T>(keys: seq<TypedKey<T>>, loaders: seq<(T, Table)>, k: nat) returns (j: nat)
    requires AllWellKeyed(loaders)
    requires k < |FetchAll(keys, loaders)| && FetchAll(keys, loaders)[k].Some?
    ensures j < |loaders|
    ensures var d := FetchAll(keys, loaders)[k].value;
            d.id in loaders[j].1 && loaders[j].1[d.id] == d && d.id in IdsOfType(keys, loaders[j].0)
  {
    var ids := IdsOfType(keys, loaders[0].0);
    var head := LoadMany(loaders[0].1, ids);
    if k < |head| {
      j := 0;
      assert head[k] == Lookup(loaders[0].1, ids[k]);
    } else {
      assert FetchAll(keys, loaders)[k] == FetchAll(keys, loaders[1..])[k - |head|];
      assert AllWellKeyed(loaders[1..]) by {
        assert forall j :: 0 <= j < |loaders[1..]| ==> loaders[1..][j] == loaders[j + 1];
      }
      var j' := FetchedOrigin(keys, loaders[1..], k - |head|);
      j := j' + 1;
    }
  }

  /** Entry i of the batch is what the sub-loader for the key's own type holds
      under the key's id, provided no id is requested under two types. */
  lemma BatchEntry<T>(keys: seq<TypedKey<T>>, loaders: seq<(T, Table)>, i: nat, j: nat)
    requires AllWellKeyed(loaders) && DistinctKinds(loaders) && ConsistentKinds(keys)
    requires i < |keys| && j < |loaders| && loaders[j].0 == keys[i].kind
    ensures Batch(keys, loaders)[i] == Lookup(loaders[j].1, keys[i].id)
  {
    var id := keys[i].id;
    var fetched := FetchAll(keys, loaders);
    var r := FindById(fetched, id);
    assert Batch(keys, loaders)[i] == r;
    if id in loaders[j].1 {
      FetchedWhenStored(keys, loaders, j, id);
    }
    if r.Some? {
      var k :| 0 <= k < |fetched| && fetched[k] == r;
      var j' := FetchedOrigin(keys, loaders, k);
      var i' := IdsOfTypeOrigin(keys, loaders[j'].0, id);
      assert loaders[j'].0 == loaders[j].0;
      assert j' == j;
    }
  }

  /** A key whose type has no sub-loader gets `None` when its id is asked for under no other type. */
  lemma BatchEntryWithoutLoader<T>(keys: seq<TypedKey<T>>, loaders: seq<(T, Table)>, i: nat)
    requires AllWellKeyed(loaders) && ConsistentKinds(keys)
    requires i < |keys|
    requires forall j :: 0 <= j < |loaders| ==> loaders[j].0 != keys[i].kind
    ensures Batch(keys, loaders)[i] == None
  {
    var id := keys[i].id;
    var fetched := FetchAll(keys, loaders);
    var r := FindById(fetched, id);
    assert Batch(keys, loaders)[i] == r;
    if r.Some? {
      var k :| 0 <= k < |fetched| && fetched[k] == r;
      var j' := FetchedOrigin(keys, loaders, k);
      var i' := IdsOfTypeOrigin(keys, loaders[j'].0, id);
      assert false;
    }
  }
}
