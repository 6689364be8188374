/** The in-memory cache of `database/src/cache.rs`: a map with either a bound on its entries or a
    bound on their estimated total size, evicting random entries to stay within it. */
module Cache {

  /** `CachePolicyInner`; `Empty` is `Policy(false, 0, 0)` and `Count(n)` is `Policy(false, n, 0)`. */
  datatype Policy = Policy(tracked: bool, maxSize: nat, minItems: nat)

  ghost predicate Submap<K, V>(m: map<K, V>, n: map<K, V>) {
    forall k :: k in m ==> k in n && m[k] == n[k]
  }

  /** Sum of the sizes of all entries. */
  ghost function Total<K, V>(m: map<K, V>, size: V -> nat): nat {
    if m == map[] then 0
    else
      var k :| k in m;
      size(m[k]) + Total(m - {k}, size)
  }

  lemma {:induction false} TotalRemove<K, V>(m: map<K, V>, size: V -> nat, k: K)
    requires k in m
    ensures Total(m, size) == size(m[k]) + Total(m - {k}, size)
    decreases |m|
  {
    var j :| j in m && Total(m, size) == size(m[j]) + Total(m - {j}, size);
    if j != k {
      TotalRemove(m - {j}, size, k);
      TotalRemove(m - {k}, size, j);
      assert m - {j} - {k} == m - {k} - {j};
    }
  }

  lemma TotalUpdate<K, V>(m: map<K, V>, size: V -> nat, k: K, v: V)
    ensures Total(m[k := v], size) == size(v) + Total(m - {k}, size)
  {
    TotalRemove(m[k := v], size, k);
    assert m[k := v] - {k} == m - {k};
  }

  /** Inserting a list in order: for a repeated key the last value stays. */
  function InsertAll<K, V>(m: map<K, V>, items: seq<(K, V)>): map<K, V> {
    if items == [] then m
    else
      var last := items[|items| - 1];
      InsertAll(m, items[..|items| - 1])[last.0 := last.1]
  }

  function DropAll<K, V>(m: map<K, V>, keys: seq<K>): map<K, V> {
    if keys == [] then m else DropAll(m, keys[..|keys| - 1]) - {keys[|keys| - 1]}
  }

  lemma {:induction false} DropAllIsDifference<K, V>(m: map<K, V>, keys: seq<K>)
    ensures DropAll(m, keys) == map k | k in m && k !in keys :: m[k]
  {
    if keys != [] {
      DropAllIsDifference(m, keys[..|keys| - 1]);
      assert keys == keys[..|keys| - 1] + [keys[|keys| - 1]];
    }
  }

  lemma {:induction false} DropAllOfNone<K, V>(keys: seq<K>)
    ensures DropAll<K, V>(map[], keys) == map[]
  {
    if keys != [] {
      DropAllOfNone<K, V>(keys[..|keys| - 1]);
    }
  }

  lemma {:induction false} DropAllStep<K, V>(m: map<K, V>, keys: seq<K>, i: nat)
    requires i < |keys|
    ensures DropAll(m, keys[..i + 1]) == DropAll(m, keys[..i]) - {keys[i]}
  {
    assert keys[..i + 1][..i] == keys[..i];
  }

  ghost predicate WithinPolicy<K, V>(policy: Policy, entries: map<K, V>, size: V -> nat) {
    if policy.tracked then
      Total(entries, size) <= policy.maxSize || |entries| <= policy.minItems
    else
      |entries| <= policy.maxSize
  }

  /** Evicted, if at all, until one entry more would have been too much. */
  ghost predicate JustEnough<K, V>(policy: Policy, size: V -> nat, all: map<K, V>, entries: map<K, V>) {
    || entries == all
    || (|entries| >= policy.minItems &&
        exists k :: k in all && k !in entries && Total(entries, size) + size(all[k]) > policy.maxSize)
  }

  /** An insertion that evicts nothing. An untracked cache that is full evicts even for a key it holds. */
  ghost predicate Room<K, V>(policy: Policy, size: V -> nat, m: map<K, V>, k: K, v: V) {
    && policy.maxSize > 0
    && (if policy.tracked then WithinPolicy(policy, m[k := v], size) else |m| < policy.maxSize)
  }

  ghost predicate RoomForAll<K, V>(policy: Policy, size: V -> nat, m: map<K, V>, items: seq<(K, V)>) {
    forall i :: 0 <= i < |items| ==> Room(policy, size, InsertAll(m, items[..i]), items[i].0, items[i].1)
  }

  /** How many entries eviction leaves at least, where there are as many. */
  function Floor(policy: Policy): int {
    if policy.tracked && policy.maxSize > 0 then policy.minItems else policy.maxSize - 1
  }

  /** What is left after insertions into `m`: everything if there was room, an untracked cache's last key in any case,
      and no fewer entries than the floor. */
  ghost predicate Evicted<K, V>(policy: Policy, size: V -> nat, m: map<K, V>, items: seq<(K, V)>, entries: map<K, V>) {
    && Submap(entries, InsertAll(m, items))
    && (RoomForAll(policy, size, m, items) ==> entries == InsertAll(m, items))
    && (!policy.tracked && policy.maxSize > 0 && items != [] ==> items[|items| - 1].0 in entries)
    && (|entries| >= |InsertAll(m, items)| || |entries| >= Floor(policy))
  }

  lemma InsertAllMore<K, V>(m: map<K, V>, items: seq<(K, V)>, i: nat)
    requires i < |items|
    ensures InsertAll(m, items[..i + 1]) == InsertAll(m, items[..i])[items[i].0 := items[i].1]
  {
    assert items[..i + 1][..i] == items[..i];
  }

  lemma InsertAllOne<K, V>(m: map<K, V>, k: K, v: V)
    ensures InsertAll(m, [(k, v)]) == m[k := v]
  {
    assert [(k, v)][..0] == [];
  }

  lemma RoomForOne<K, V>(policy: Policy, size: V -> nat, m: map<K, V>, k: K, v: V)
    ensures RoomForAll(policy, size, m, [(k, v)]) <==> Room(policy, size, m, k, v)
  {
    var items := [(k, v)];
    assert items[..0] == [] && InsertAll(m, items[..0]) == m && items[0] == (k, v);
    if RoomForAll(policy, size, m, items) {
      assert Room(policy, size, InsertAll(m, items[..0]), items[0].0, items[0].1);
    }
  }

  lemma {:induction false} InsertAllKeys<K, V>(m: map<K, V>, items: seq<(K, V)>, k: K)
    ensures k in InsertAll(m, items) <==> k in m || exists i :: 0 <= i < |items| && items[i].0 == k
  {
    if items != [] {
      var n := |items| - 1;
      InsertAllKeys(m, items[..n], k);
      assert forall i :: 0 <= i < n ==> items[..n][i] == items[i];
    }
  }

  class Cache<K(==), V> {
    const policy: Policy
    const size: V -> nat
    var entries: map<K, V>
    var trackedSize: nat

    /** Size accounting is exact and the policy's bound holds between any two operations. */
    ghost predicate Valid()
      reads this
    {
      && (policy.maxSize == 0 ==> entries == map[])
      && trackedSize == (if policy.tracked then Total(entries, size) else 0)
      && WithinPolicy(policy, entries, size)
    }

    constructor (policy: Policy, size: V -> nat)
      ensures Valid() && entries == map[]
      ensures this.policy == policy && this.size == size
    {
      this.policy := policy;
      this.size := size;
      entries := map[];
      trackedSize := 0;
    }

    /** Evicts random entries until the size fits or few enough entries are left, and not one more
        than that takes. */
    method TrackedEvict()
      requires policy.tracked && trackedSize == Total(entries, size)
      modifies this
      ensures trackedSize == Total(entries, size)
      ensures Submap(entries, old(entries))
      ensures WithinPolicy(policy, entries, size)
      ensures WithinPolicy(policy, old(entries), size) ==> entries == old(entries)
      ensures JustEnough(policy, size, old(entries), entries)
    {
      while trackedSize > policy.maxSize && |entries| > policy.minItems
        invariant trackedSize == Total(entries, size)
        invariant Submap(entries, old(entries))
        invariant WithinPolicy(policy, old(entries), size) ==> entries == old(entries)
        invariant JustEnough(policy, size, old(entries), entries)
        decreases |entries|
      {
        var k :| k in entries;
        EvictOne(policy, size, old(entries), entries, k);
        trackedSize := trackedSize - size(entries[k]);
        entries := entries - {k};
      }
    }

    method Insert(key: K, data: V)
      requires Valid()
      modifies this
      ensures Valid()
      ensures Submap(entries, old(entries)[key := data])
      ensures Room(policy, size, old(entries), key, data) ==> entries == old(entries)[key := data]
      ensures !policy.tracked && policy.maxSize > 0 ==>
                key in entries && |old(entries)[key := data]| - |entries| <= 1
      ensures |entries| >= |old(entries)[key := data]| || |entries| >= Floor(policy)
      ensures policy.tracked && policy.maxSize > 0 ==> JustEnough(policy, size, old(entries)[key := data], entries)
    {
      if policy.maxSize == 0 {
        return;
      }
      if policy.tracked {
        trackedSize := trackedSize + size(data);
        if key in entries {
          TotalRemove(entries, size, key);
          trackedSize := trackedSize - size(entries[key]);
        } else {
          assert entries - {key} == entries;
        }
        TotalUpdate(entries, size, key, data);
        entries := entries[key := data];
        TrackedEvict();
      } else {
        if |entries| == policy.maxSize {
          var k :| k in entries;
          assert (entries - {k}).Keys == entries.Keys - {k};
          entries := entries - {k};
        }
        CardUpdate(entries, key, data);
        CardUpdate(old(entries), key, data);
        entries := entries[key := data];
      }
    }

    /** Entries inserted under one lock; a repeated key keeps its last value. */
    method InsertMany(items: seq<(K, V)>)
      requires Valid()
      modifies this
      ensures Valid()
      ensures Evicted(policy, size, old(entries), items, entries)
    {
      if policy.maxSize == 0 {
        NothingHeld(policy, size, items);
        return;
      }
      for i := 0 to |items|
        invariant Valid()
        invariant Evicted(policy, size, old(entries), items[..i], entries)
      {
        ghost var m := entries;
        Insert(items[i].0, items[i].1);
        EvictedMore(policy, size, old(entries), items, i, m, entries);
      }
      assert items[..|items|] == items;
    }

    method UpdateIfEntryExists(key: K, op: V -> V)
      requires Valid()
      modifies this
      ensures Valid()
      ensures key !in old(entries) ==> entries == old(entries)
      ensures key in old(entries) ==> Submap(entries, old(entries)[key := op(old(entries)[key])])
      ensures key in old(entries) && (policy.tracked ==> WithinPolicy(policy, old(entries)[key := op(old(entries)[key])], size))
              ==> entries == old(entries)[key := op(old(entries)[key])]
    {
      if policy.maxSize == 0 || key !in entries {
        return;
      }
      var data := op(entries[key]);
      if policy.tracked {
        TotalRemove(entries, size, key);
        TotalUpdate(entries, size, key, data);
        trackedSize := trackedSize - size(entries[key]);
        entries := entries[key := data];
        trackedSize := trackedSize + size(data);
        TrackedEvict();
      } else {
        CardUpdate(entries, key, data);
        entries := entries[key := data];
      }
    }

    method Remove(key: K)
      requires Valid()
      modifies this
      ensures Valid()
      ensures entries == old(entries) - {key}
    {
      if policy.maxSize == 0 || key !in entries {
        assert entries - {key} == entries;
        return;
      }
      assert (entries - {key}).Keys == entries.Keys - {key};
      TotalRemove(entries, size, key);
      if policy.tracked {
        trackedSize := trackedSize - size(entries[key]);
      }
      entries := entries - {key};
    }

    method RemoveMany(keys: seq<K>)
      requires Valid()
      modifies this
      ensures Valid()
      ensures entries == DropAll(old(entries), keys)
    {
      if policy.maxSize == 0 {
        DropAllOfNone<K, V>(keys);
        return;
      }
      var i := 0;
      while i < |keys|
        invariant 0 <= i <= |keys|
        invariant Valid()
        invariant entries == DropAll(old(entries), keys[..i])
      {
        DropAllStep(old(entries), keys, i);
        Remove(keys[i]);
        i := i + 1;
      }
      assert keys[..i] == keys;
    }

    method RemoveAll()
      requires Valid()
      modifies this
      ensures Valid()
      ensures entries == map[]
    {
      if policy.maxSize == 0 {
        return;
      }
      entries := map[];
      if policy.tracked {
        trackedSize := 0;
      }
    }
  }

  /** Evicting one entry of a cache that is too large is no more than it takes. */
  lemma EvictOne<K, V>(policy: Policy, size: V -> nat, all: map<K, V>, entries: map<K, V>, k: K)
    requires Submap(entries, all) && k in entries && Total(entries, size) > policy.maxSize && |entries| > policy.minItems
    ensures Submap(entries - {k}, all) && JustEnough(policy, size, all, entries - {k})
    ensures |entries - {k}| == |entries| - 1 && Total(entries, size) == Total(entries - {k}, size) + size(entries[k])
  {
    TotalRemove(entries, size, k);
    assert (entries - {k}).Keys == entries.Keys - {k};
  }

  lemma NothingHeld<K, V>(policy: Policy, size: V -> nat, items: seq<(K, V)>)
    requires policy.maxSize == 0
    ensures Evicted(policy, size, map[], items, map[])
  {
    if items != [] {
      assert !Room(policy, size, InsertAll(map[], items[..0]), items[0].0, items[0].1);
    }
  }

  /** One more insertion, from `m` to `m'`. */
  lemma EvictedMore<K, V>(policy: Policy, size: V -> nat, base: map<K, V>, items: seq<(K, V)>, i: nat, m: map<K, V>, m': map<K, V>)
    requires i < |items| && policy.maxSize > 0 && Evicted(policy, size, base, items[..i], m)
    requires Submap(m', m[items[i].0 := items[i].1])
    requires Room(policy, size, m, items[i].0, items[i].1) ==> m' == m[items[i].0 := items[i].1]
    requires !policy.tracked ==> items[i].0 in m'
    requires |m'| >= |m[items[i].0 := items[i].1]| || |m'| >= Floor(policy)
    ensures Evicted(policy, size, base, items[..i + 1], m')
  {
    var all := InsertAll(base, items[..i]);
    InsertAllMore(base, items, i);
    if RoomForAll(policy, size, base, items[..i + 1]) {
      RoomBefore(policy, size, base, items, i);
    }
    CardUpdate(all, items[i].0, items[i].1);
    CardUpdate(m, items[i].0, items[i].1);
  }

  lemma RoomBefore<K, V>(policy: Policy, size: V -> nat, base: map<K, V>, items: seq<(K, V)>, i: nat)
    requires i < |items| && RoomForAll(policy, size, base, items[..i + 1])
    ensures RoomForAll(policy, size, base, items[..i])
    ensures Room(policy, size, InsertAll(base, items[..i]), items[i].0, items[i].1)
  {
    forall j | 0 <= j <= i
      ensures Room(policy, size, InsertAll(base, items[..j]), items[j].0, items[j].1)
    {
      assert items[..i + 1][..j] == items[..j] && items[..i + 1][j] == items[j];
    }
    forall j | 0 <= j < i
      ensures Room(policy, size, InsertAll(base, items[..i][..j]), items[..i][j].0, items[..i][j].1)
    {
      assert items[..i][..j] == items[..j] && items[..i][j] == items[j];
    }
  }

  lemma CardUpdate<K, V>(m: map<K, V>, k: K, v: V)
    ensures |m[k := v]| == if k in m then |m| else |m| + 1
  {
    assert m[k := v].Keys == m.Keys + {k};
  }
}
