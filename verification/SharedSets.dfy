/** The cache of `database/src/cache.rs` as `CachedDbSetAccess` uses it: its values are sets shared with
    every reader (`Arc<RwLock<HashSet>>`), updated in place while they are cached. */
module SharedSets {
  import C = Cache

  /** A shared set; `bucket` records which bucket it was made for. */
  class LockedSet<K(==), T(==)> {
    var items: set<T>
    ghost const bucket: K

    constructor (items: set<T>, ghost bucket: K)
      ensures this.items == items && this.bucket == bucket
    {
      this.items := items;
      this.bucket := bucket;
    }
  }

  function SizeOf<T>(s: set<T>): nat {
    |s|
  }

  /** Sum of set sizes, in the cache's units. */
  ghost function Units<K, T>(sets: map<K, set<T>>): nat {
    C.Total(sets, SizeOf<T>)
  }

  lemma UnitsRemove<K, T>(sets: map<K, set<T>>, k: K)
    requires k in sets
    ensures Units(sets) == |sets[k]| + Units(sets - {k})
  {
    C.TotalRemove(sets, SizeOf<T>, k);
  }

  lemma UnitsUpdate<K, T>(sets: map<K, set<T>>, k: K, s: set<T>)
    ensures Units(sets[k := s]) + (if k in sets then |sets[k]| else 0) == Units(sets) + |s|
  {
    C.TotalUpdate(sets, SizeOf<T>, k, s);
    if k in sets {
      C.TotalRemove(sets, SizeOf<T>, k);
    } else {
      assert sets - {k} == sets;
    }
  }

  lemma CardRemove<K, V>(m: map<K, V>, k: K)
    requires k in m
    ensures |m - {k}| == |m| - 1
  {
    assert (m - {k}).Keys == m.Keys - {k};
  }

  /** Callers keep the sets they were given, and updates go through them. */
  class SetCache<K(==), T(==)> {
    const policy: C.Policy
    var entries: map<K, LockedSet<K, T>>
    var trackedSize: nat
    ghost var sets: map<K, set<T>>

    /** Each set is cached under its own bucket only, `sets` are the current contents, the tracked size is
        their sum, and the policy's bound holds. */
    ghost predicate Valid()
      reads this, entries.Values
    {
      Shape() && Accounted() && WithinPolicy() && (policy.maxSize == 0 ==> entries == map[])
    }

    ghost predicate Shape()
      reads this, entries.Values
    {
      sets.Keys == entries.Keys && forall k :: k in entries ==> entries[k].bucket == k && sets[k] == entries[k].items
    }

    ghost predicate Accounted()
      reads this
    {
      trackedSize == if policy.tracked then Units(sets) else 0
    }

    ghost predicate WithinPolicy()
      reads this
    {
      if policy.tracked then trackedSize <= policy.maxSize || |entries| <= policy.minItems
      else |entries| <= policy.maxSize
    }

    constructor (policy: C.Policy)
      ensures Valid() && entries == map[] && sets == map[] && this.policy == policy
    {
      this.policy := policy;
      entries := map[];
      trackedSize := 0;
      sets := map[];
    }

    method Evict(k: K)
      requires k in entries && Shape() && Accounted()
      modifies this
      ensures Shape() && Accounted()
      ensures entries == old(entries) - {k} && sets == old(sets) - {k}
      ensures trackedSize <= old(trackedSize)
    {
      UnitsRemove(sets, k);
      if policy.tracked {
        trackedSize := trackedSize - |entries[k].items|;
      }
      sets := sets - {k};
      entries := entries - {k};
    }

    method TrackedEvict()
      requires policy.tracked && Shape() && Accounted()
      modifies this
      ensures Shape() && Accounted() && WithinPolicy()
      ensures C.Submap(entries, old(entries)) && C.Submap(sets, old(sets))
      ensures old(WithinPolicy()) ==> entries == old(entries) && sets == old(sets)
      ensures C.JustEnough(policy, SizeOf<T>, old(sets), sets)
    {
      while trackedSize > policy.maxSize && |entries| > policy.minItems
        invariant Shape() && Accounted()
        invariant C.Submap(entries, old(entries)) && C.Submap(sets, old(sets))
        invariant C.JustEnough(policy, SizeOf<T>, old(sets), sets)
        invariant old(WithinPolicy()) ==> entries == old(entries) && sets == old(sets) && trackedSize == old(trackedSize)
        decreases |entries|
      {
        var k :| k in entries;
        CardRemove(entries, k);
        SameCount();
        C.EvictOne(policy, SizeOf<T>, old(sets), sets, k);
        Evict(k);
      }
    }

    /** Caches a set, in place of the one cached under its key if there is one. */
    method Insert(key: K, entry: LockedSet<K, T>)
      requires Valid() && entry.bucket == key
      modifies this
      ensures Valid()
      ensures C.Submap(entries, old(entries)[key := entry]) && C.Submap(sets, old(sets)[key := entry.items])
      ensures !policy.tracked && policy.maxSize > 0 ==> key in entries
      ensures C.Room(policy, SizeOf<T>, old(sets), key, entry.items) ==>
                entries == old(entries)[key := entry] && sets == old(sets)[key := entry.items]
      ensures policy.tracked && policy.maxSize > 0 ==> C.JustEnough(policy, SizeOf<T>, old(sets)[key := entry.items], sets)
    {
      if policy.maxSize == 0 {
        return;
      }
      SameCount();
      if policy.tracked {
        Place(key, entry);
        SameCount();
        TrackedEvict();
      } else {
        MakeRoom();
        C.CardUpdate(entries, key, entry);
        Place(key, entry);
      }
    }

    lemma SizesFit()
      requires Valid()
      ensures C.WithinPolicy(policy, sets, SizeOf<T>)
    {
      SameCount();
    }

    lemma SameCount()
      requires Shape()
      ensures |entries| == |sets|
    {
      assert |entries| == |entries.Keys| && |sets| == |sets.Keys|;
    }

    method MakeRoom()
      requires Valid() && !policy.tracked && policy.maxSize > 0
      modifies this
      ensures Shape() && Accounted() && |entries| < policy.maxSize
      ensures C.Submap(entries, old(entries)) && C.Submap(sets, old(sets))
      ensures old(|entries|) < policy.maxSize ==> entries == old(entries) && sets == old(sets)
    {
      if |entries| == policy.maxSize {
        var k :| k in entries;
        CardRemove(entries, k);
        Evict(k);
      }
    }

    method Place(key: K, entry: LockedSet<K, T>)
      requires Shape() && Accounted() && entry.bucket == key
      modifies this
      ensures Shape() && Accounted()
      ensures entries == old(entries)[key := entry] && sets == old(sets)[key := entry.items]
    {
      UnitsUpdate(sets, key, entry.items);
      if policy.tracked {
        trackedSize := trackedSize + |entry.items|;
        if key in entries {
          trackedSize := trackedSize - |entries[key].items|;
        }
      }
      sets := sets[key := entry.items];
      entries := entries[key := entry];
    }

    /** Changes a cached set in place, seen by everyone who holds it. */
    method UpdateIfEntryExists(key: K, op: set<T> -> set<T>)
      requires Valid()
      modifies this, if key in entries then {entries[key]} else {}
      ensures Valid() && C.Submap(entries, old(entries))
      ensures key !in old(entries) ==> entries == old(entries) && sets == old(sets)
      ensures key in old(entries) ==> old(entries)[key].items == op(old(sets)[key])
                                      && C.Submap(sets, old(sets)[key := op(old(sets)[key])])
      ensures key in old(entries) && (!policy.tracked || C.WithinPolicy(policy, old(sets)[key := op(old(sets)[key])], SizeOf<T>)) ==>
                entries == old(entries) && sets == old(sets)[key := op(old(sets)[key])]
      ensures key in old(entries) && policy.tracked ==> C.JustEnough(policy, SizeOf<T>, old(sets)[key := op(old(sets)[key])], sets)
    {
      if policy.maxSize == 0 || key !in entries {
        return;
      }
      Mutate(key, op);
      SameCount();
      if policy.tracked {
        TrackedEvict();
      }
    }

    method Mutate(key: K, op: set<T> -> set<T>)
      requires Shape() && Accounted() && key in entries
      modifies this, entries[key]
      ensures Shape() && Accounted() && entries == old(entries)
      ensures sets == old(sets)[key := op(old(sets)[key])]
    {
      var entry := entries[key];
      UnitsUpdate(sets, key, op(entry.items));
      UnitsRemove(sets, key);
      if policy.tracked {
        trackedSize := trackedSize - |entry.items|;
      }
      entry.items := op(entry.items);
      if policy.tracked {
        trackedSize := trackedSize + |entry.items|;
      }
      sets := sets[key := entry.items];
    }

    method Remove(key: K)
      requires Valid()
      modifies this
      ensures Valid() && entries == old(entries) - {key} && sets == old(sets) - {key}
    {
      if policy.maxSize == 0 || key !in entries {
        return;
      }
      CardRemove(entries, key);
      Evict(key);
    }
  }
}
