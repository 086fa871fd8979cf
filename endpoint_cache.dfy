/**
 * The address cache a destination set keeps (`Cache<SocketAddr, Metadata>`)
 * and the changes it reports to its callback. The cache's own source is not
 * part of this model: it is modelled as an insertion-ordered map that
 * reports an insertion for a new key, a modification for a key whose
 * metadata changes, and a removal for a key it drops.
 */
module EndpointCache {
  import opened IndexMaps
  import opened DestinationProto

  datatype CacheChange =
    | Insertion(key: SockAddr, value: Metadata)
    | Removal(key: SockAddr)
    | Modification(key: SockAddr, newValue: Metadata)

  /** Cached endpoints in insertion order, and the flag `set_reset_on_next_modification` raises. */
  datatype Cache = Cache(entries: seq<(SockAddr, Metadata)>, resetOnNextModification: bool)

  /** `Cache::new()`. */
  const Empty := Cache([], false)

  /** Each address is cached once. */
  predicate Valid(c: Cache) {
    UniqueKeys(c.entries)
  }

  /** Merging one endpoint into the cache. */
  function UnionOne(c: Cache, k: SockAddr, v: Metadata): (Cache, seq<CacheChange>) {
    var m := ToMap(c.entries);
    if k !in m then (c.(entries := Insert(c.entries, k, v)), [Insertion(k, v)])
    else if m[k] != v then (c.(entries := Insert(c.entries, k, v)), [Modification(k, v)])
    else (c, [])
  }

  /** `update_union`: merges the endpoints in order, collecting the changes reported. */
  function UpdateUnion(c: Cache, adds: seq<(SockAddr, Metadata)>): (Cache, seq<CacheChange>) {
    if adds == [] then (c, [])
    else
      var last := adds[|adds| - 1];
      var before := UpdateUnion(c, adds[..|adds| - 1]);
      var step := UnionOne(before.0, last.0, last.1);
      (step.0, before.1 + step.1)
  }

  /** Dropping one address from the cache. */
  function RemoveOne(c: Cache, k: SockAddr): (Cache, seq<CacheChange>) {
    if k in ToMap(c.entries) then (c.(entries := RemoveKey(c.entries, k)), [Removal(k)]) else (c, [])
  }

  /** `remove`: drops the addresses in order, collecting the changes reported. */
  function RemoveAll(c: Cache, keys: seq<SockAddr>): (Cache, seq<CacheChange>) {
    if keys == [] then (c, [])
    else
      var before := RemoveAll(c, keys[..|keys| - 1]);
      var step := RemoveOne(before.0, keys[|keys| - 1]);
      (step.0, before.1 + step.1)
  }

  /** `clear`: one removal per cached address, in cache order. */
  function ClearChanges(c: Cache): seq<CacheChange> {
    seq(|c.entries|, i requires 0 <= i < |c.entries| => Removal(c.entries[i].0))
  }

  /** `set_reset_on_next_modification`. */
  function SetResetOnNextModification(c: Cache): Cache {
    c.(resetOnNextModification := true)
  }

  lemma UnionOneSpec(c: Cache, k: SockAddr, v: Metadata)
    requires Valid(c)
    ensures Valid(UnionOne(c, k, v).0)
    ensures ToMap(UnionOne(c, k, v).0.entries) == ToMap(c.entries)[k := v]
    ensures |UnionOne(c, k, v).1| <= 1
  {
    InsertToMap(c.entries, k, v);
    var m := ToMap(c.entries);
    if k in m && m[k] == v {
      assert m[k := v] == m;
    }
  }

  /** Merging keeps addresses unique and yields the old map overridden by the new endpoints. */
  lemma {:induction false} UpdateUnionSpec(c: Cache, adds: seq<(SockAddr, Metadata)>)
    requires Valid(c)
    ensures Valid(UpdateUnion(c, adds).0)
    ensures ToMap(UpdateUnion(c, adds).0.entries) == ToMap(c.entries) + ToMap(adds)
  {
    if adds != [] {
      var init, last := adds[..|adds| - 1], adds[|adds| - 1];
      assert adds == init + [last];
      UpdateUnionSpec(c, init);
      var before := UpdateUnion(c, init);
      UnionOneSpec(before.0, last.0, last.1);
      assert UpdateUnion(c, adds).0 == UnionOne(before.0, last.0, last.1).0;
      UnionStep(ToMap(c.entries), init, last);
    }
  }

  /** Merging reports only insertions and modifications, each carrying one of the merged endpoints. */
  lemma {:induction false} UpdateUnionChanges(c: Cache, adds: seq<(SockAddr, Metadata)>)
    ensures forall ch :: ch in UpdateUnion(c, adds).1 ==>
      (ch.Insertion? && (ch.key, ch.value) in adds) || (ch.Modification? && (ch.key, ch.newValue) in adds)
  {
    if adds != [] {
      var init, last := adds[..|adds| - 1], adds[|adds| - 1];
      assert adds == init + [last];
      UpdateUnionChanges(c, init);
    }
  }

  lemma UnionStep(m: map<SockAddr, Metadata>, init: seq<(SockAddr, Metadata)>, last: (SockAddr, Metadata))
    ensures (m + ToMap(init))[last.0 := last.1] == m + ToMap(init + [last])
  {
    ToMapSnoc(init, last.0, last.1);
  }

  /** Removal keeps addresses unique and drops exactly the listed addresses. */
  lemma {:induction false} RemoveAllSpec(c: Cache, keys: seq<SockAddr>)
    requires Valid(c)
    ensures Valid(RemoveAll(c, keys).0)
    ensures ToMap(RemoveAll(c, keys).0.entries) == ToMap(c.entries) - set k | k in keys
    ensures forall ch :: ch in RemoveAll(c, keys).1 ==> ch.Removal? && ch.key in keys
  {
    if keys != [] {
      var init, last := keys[..|keys| - 1], keys[|keys| - 1];
      assert keys == init + [last];
      RemoveAllSpec(c, init);
      var c0 := RemoveAll(c, init).0;
      RemoveKeyToMap(c0.entries, last);
      assert (set k | k in keys) == (set k | k in init) + {last};
    }
  }
}
