/** Readers and writers of one `CachedDbAccess` interleaved: each lock-protected cache access and each
    database access of `read` and `write` is one step, and the cache may evict at any step. */
module WriteOnce {
  import opened KeySpace
  import C = Cache

  datatype Pc<K, V> =
    | Idle
    | Looking(key: K)                     // missed the cache, has not asked the database yet
    | Fetched(key: K, data: V)            // has the database's value, has not cached it yet
    | Answered(key: K, reply: Option<V>)
    | Storing(key: K, data: V)            // cached the value, has not put it yet

  datatype Sys<K, V> = Sys(db: map<K, V>, cache: map<K, V>, threads: map<nat, Pc<K, V>>)

  datatype Act<K, V> =
    | BeginRead(t: nat, key: K)
    | AskDb(t: nat)
    | Fill(t: nat)
    | BeginWrite(t: nat, key: K, data: V)
    | Put(t: nat)
    | Evict

  predicate Free<K, V>(s: Sys<K, V>, t: nat) {
    t in s.threads && (s.threads[t].Idle? || s.threads[t].Answered?)
  }

  ghost predicate Step<K, V>(s: Sys<K, V>, a: Act<K, V>, s': Sys<K, V>) {
    match a
    case BeginRead(t, k) =>
      && Free(s, t) && s'.db == s.db && s'.cache == s.cache
      && s'.threads == s.threads[t := if k in s.cache then Answered(k, Some(s.cache[k])) else Looking(k)]
    case AskDb(t) =>
      && t in s.threads && s.threads[t].Looking? && s'.db == s.db && s'.cache == s.cache
      && var k := s.threads[t].key;
         s'.threads == s.threads[t := if k in s.db then Fetched(k, s.db[k]) else Answered(k, None)]
    case Fill(t) =>
      && t in s.threads && s.threads[t].Fetched? && s'.db == s.db
      && var k, v := s.threads[t].key, s.threads[t].data;
         C.Submap(s'.cache, s.cache[k := v]) && s'.threads == s.threads[t := Answered(k, Some(v))]
    case BeginWrite(t, k, v) =>
      && Free(s, t) && s'.db == s.db
      && C.Submap(s'.cache, s.cache[k := v]) && s'.threads == s.threads[t := Storing(k, v)]
    case Put(t) =>
      && t in s.threads && s.threads[t].Storing? && s'.cache == s.cache
      && s'.db == s.db[s.threads[t].key := s.threads[t].data] && s'.threads == s.threads[t := Idle]
    case Evict =>
      s'.db == s.db && C.Submap(s'.cache, s.cache) && s'.threads == s.threads
  }

  ghost predicate Run<K, V>(ss: seq<Sys<K, V>>, acts: seq<Act<K, V>>) {
    |ss| == |acts| + 1 && forall i :: 0 <= i < |acts| ==> Step(ss[i], acts[i], ss[i + 1])
  }

  /** Every write of a key, by whichever thread, writes the same value. */
  ghost predicate SingleValued<K, V>(val: K -> V, acts: seq<Act<K, V>>) {
    forall i :: 0 <= i < |acts| && acts[i].BeginWrite? ==> acts[i].data == val(acts[i].key)
  }

  ghost predicate PcSafe<K, V>(val: K -> V, pc: Pc<K, V>) {
    match pc
    case Fetched(k, v) => v == val(k)
    case Answered(k, r) => r.Some? ==> r.value == val(k)
    case Storing(k, v) => v == val(k)
    case _ => true
  }

  /** No value other than a key's own is stored, cached, held or answered. */
  ghost predicate Safe<K, V>(val: K -> V, s: Sys<K, V>) {
    && (forall k :: k in s.db ==> s.db[k] == val(k))
    && (forall k :: k in s.cache ==> s.cache[k] == val(k))
    && (forall t :: t in s.threads ==> PcSafe(val, s.threads[t]))
  }

  lemma StepSafe<K, V>(val: K -> V, s: Sys<K, V>, a: Act<K, V>, s': Sys<K, V>)
    requires Safe(val, s) && Step(s, a, s') && (a.BeginWrite? ==> a.data == val(a.key))
    ensures Safe(val, s')
    ensures s.db.Keys <= s'.db.Keys
  {
    if !a.Evict? {
      assert PcSafe(val, s.threads[a.t]);
      forall t | t in s'.threads
        ensures PcSafe(val, s'.threads[t])
      {
        if t != a.t {
          assert s'.threads[t] == s.threads[t];
        }
      }
    }
  }

  /** On every interleaving of write-once keys: whatever is cached or answered for a key is the one value
      written to it. */
  lemma {:induction false} RunSafe<K, V>(val: K -> V, ss: seq<Sys<K, V>>, acts: seq<Act<K, V>>, i: nat)
    requires Run(ss, acts) && SingleValued(val, acts) && Safe(val, ss[0]) && i <= |acts|
    ensures Safe(val, ss[i])
  {
    if i > 0 {
      RunSafe(val, ss, acts, i - 1);
      StepSafe(val, ss[i - 1], acts[i - 1], ss[i]);
    }
  }

  lemma {:induction false} StoredStays<K, V>(val: K -> V, ss: seq<Sys<K, V>>, acts: seq<Act<K, V>>, i: nat, j: nat, k: K)
    requires Run(ss, acts) && SingleValued(val, acts) && Safe(val, ss[0])
    requires i <= j <= |acts| && k in ss[i].db
    ensures k in ss[j].db
  {
    if i < j {
      StoredStays(val, ss, acts, i, j - 1, k);
      RunSafe(val, ss, acts, j - 1);
      StepSafe(val, ss[j - 1], acts[j - 1], ss[j]);
    }
  }

  predicate Begins<K, V>(a: Act<K, V>, t: nat) {
    (a.BeginRead? || a.BeginWrite?) && a.t == t
  }

  /** Where thread `t` can be while it reads `k` that was stored before the read began. */
  ghost predicate OnTheWay<K, V>(val: K -> V, pc: Pc<K, V>, k: K) {
    pc == Looking(k) || pc == Fetched(k, val(k)) || pc == Answered(k, Some(val(k)))
  }

  /** Once a put has completed, every read that begins later can only answer with the value, whatever is
      evicted meanwhile. */
  lemma {:induction false} ReadAfterPut<K, V>(
    val: K -> V, ss: seq<Sys<K, V>>, acts: seq<Act<K, V>>, put: nat, begin: nat, now: nat, t: nat, k: K)
    requires Run(ss, acts) && SingleValued(val, acts) && Safe(val, ss[0])
    requires put <= begin < now <= |acts| && k in ss[put].db
    requires acts[begin] == BeginRead(t, k)
    requires forall m :: begin < m < now ==> !Begins(acts[m], t)
    ensures t in ss[now].threads && OnTheWay(val, ss[now].threads[t], k)
  {
    StoredStays(val, ss, acts, put, now - 1, k);
    RunSafe(val, ss, acts, now - 1);
    assert Step(ss[now - 1], acts[now - 1], ss[now]);
    if begin + 1 < now {
      ReadAfterPut(val, ss, acts, put, begin, now - 1, t, k);
      assert !Begins(acts[now - 1], t);
    }
  }

  /** For keys that may be rewritten this fails: a reader that fetched before a rewrite can cache after it,
      and the overwritten value stays cached while the database holds the new one. */
  lemma RewriteCanGoStale<K, V>(k: K, a: V, b: V) returns (ss: seq<Sys<K, V>>, acts: seq<Act<K, V>>)
    requires a != b
    ensures Run(ss, acts) && ss[0] == Sys(map[], map[], map[0 := Idle, 1 := Idle])
    ensures var end := ss[|acts|];
            && end.db == map[k := b] && end.cache == map[k := a]
            && Free(end, 0) && Free(end, 1) && end.threads.Keys == {0, 1}
    ensures forall i :: 0 <= i < |acts| && acts[i].BeginWrite? ==>
              acts[i].key == k && (acts[i].data == a || acts[i].data == b)
  {
    acts := [BeginWrite(0, k, a), Put(0), Evict, BeginRead(1, k), AskDb(1), BeginWrite(0, k, b), Put(0), Fill(1)];
    var idle := map[0 := Idle, 1 := Idle];
    var da, db := map[k := a], map[k := b];
    ss := [Sys(map[], map[], idle),
           Sys(map[], da, idle[0 := Storing(k, a)]),
           Sys(da, da, idle),
           Sys(da, map[], idle),
           Sys(da, map[], idle[1 := Looking(k)]),
           Sys(da, map[], idle[1 := Fetched(k, a)]),
           Sys(da, db, idle[1 := Fetched(k, a)][0 := Storing(k, b)]),
           Sys(db, db, idle[1 := Fetched(k, a)][0 := Idle]),
           Sys(db, da, idle[1 := Answered(k, Some(a))][0 := Idle])];
    assert idle[0 := Storing(k, a)][0 := Idle] == idle;
    assert ss[6].threads[0 := Idle] == ss[7].threads;
    assert ss[7].threads[1 := Answered(k, Some(a))] == ss[8].threads;
    assert da[k := b] == db && db[k := a] == da;
  }

  /** All threads are between calls and the cache contradicts the database. */
  ghost predicate Stale<K, V>(s: Sys<K, V>, k: K) {
    && k in s.cache && k in s.db && s.cache[k] != s.db[k]
    && forall t :: t in s.threads ==> Free(s, t)
  }

  ghost predicate Writes<K, V>(may: (K, V) -> bool, acts: seq<Act<K, V>>) {
    forall i :: 0 <= i < |acts| && acts[i].BeginWrite? ==> may(acts[i].key, acts[i].data)
  }

  ghost predicate Clean<K, V>(s: Sys<K, V>) {
    s.db == map[] && s.cache == map[] && forall t :: t in s.threads ==> s.threads[t] == Idle
  }

  /** No run of permitted writes ends with a stale entry. */
  ghost predicate NeverStale<K(!new), V(!new)>(may: (K, V) -> bool) {
    forall ss, acts, k :: Run(ss, acts) && Clean(ss[0]) && Writes(may, acts) ==> !Stale(ss[|acts|], k)
  }

  ghost predicate OneValueEach<K(!new), V(!new)>(may: (K, V) -> bool) {
    forall k, a, b :: may(k, a) && may(k, b) ==> a == b
  }

  ghost function ValueOf<K(!new), V(!new)>(may: (K, V) -> bool, any: V, k: K): V {
    if exists v :: may(k, v) then var v :| may(k, v); v else any
  }

  /** The cache is right on every interleaving if and only if each key is only ever written one value. */
  lemma {:induction false} NeverStaleIffWriteOnce<K(!new), V(!new)>(may: (K, V) -> bool, any: V)
    ensures NeverStale(may) <==> OneValueEach(may)
  {
    if OneValueEach(may) {
      var val := (k: K) => ValueOf(may, any, k);
      forall ss, acts, k | Run(ss, acts) && Clean(ss[0]) && Writes(may, acts)
        ensures !Stale(ss[|acts|], k)
      {
        RunSafe(val, ss, acts, |acts|);
      }
    } else {
      var k, a, b :| may(k, a) && may(k, b) && a != b;
      var ss, acts := RewriteCanGoStale(k, a, b);
      assert forall t :: t in ss[|acts|].threads ==> t == 0 || t == 1;
      assert Clean(ss[0]) && Writes(may, acts) && Stale(ss[|acts|], k);
    }
  }
}
