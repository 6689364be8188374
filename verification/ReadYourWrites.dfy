/** What caching is for while a batch is open (`database/src/access.rs`): with a cache large enough for its keys, a staged
    write answers reads before the commit. The condition on a read is here one on the calls before it, not on the cache. */
module ReadYourWrites {
  import opened KeySpace
  import opened Writer
  import opened Cache
  import opened AccessModel

  /** The call evicted nothing. */
  ghost predicate Unevicted<V>(cache: map<Bytes, V>, call: Call<V>, reply: Reply<V>, cache': map<Bytes, V>) {
    cache' == InsertAll(Remaining(cache, call), Inserted(cache, call, reply))
  }

  ghost predicate Names<V>(items: seq<(Bytes, V)>, k: Bytes) {
    exists i :: 0 <= i < |items| && items[i].0 == k
  }

  /** The last call that put `k` into the cache or took it out put it in: it was written or read, and since then neither
      deleted nor swept out by a bulk write that empties the cache. */
  ghost predicate Held<V>(es: seq<Event<V>>, k: Bytes) {
    if es == [] then false
    else
      var e, before := es[|es| - 1], Held(es[..|es| - 1], k);
      match e.call
      case Write(_, j, _) => j == k || before
      case WriteMany(_, items) => Names(items, k) || before
      case Read(j) => (j == k && e.reply.Found?) || before
      case WriteManyWithoutCache(_, _) => false
      case DeleteAll(_) => false
      case Delete(_, j) => j != k && before
      case DeleteMany(_, keys) => k !in keys && before
      case _ => before
  }

  lemma HeldStep<V>(cache: map<Bytes, V>, e: Event<V>, cache': map<Bytes, V>, before: seq<Event<V>>, k: Bytes)
    requires Unevicted(cache, e.call, e.reply, cache') && Held(before + [e], k)
    requires Held(before, k) ==> k in cache
    ensures k in cache'
  {
    assert (before + [e])[..|before|] == before;
    InsertAllKeys(Remaining(cache, e.call), Inserted(cache, e.call, e.reply), k);
    var items := Inserted(cache, e.call, e.reply);
    if (e.call.Write? || (e.call.Read? && e.reply.Found? && e.call.key !in cache)) && e.call.key == k {
      assert items[0].0 == k;
    }
  }

  ghost predicate KeptAt<V>(st: Store<V>, ss: seq<State<V>>, es: seq<Event<V>>, i: nat)
    requires |ss| == |es| + 1 && i < |es|
  {
    && Step(st, ss[i], es[i].call, ss[i + 1], es[i].reply)
    && Unevicted(ss[i].cache, es[i].call, es[i].reply, ss[i + 1].cache)
  }

  lemma {:induction false} HeldIsCached<V>(st: Store<V>, ss: seq<State<V>>, es: seq<Event<V>>, i: nat, k: Bytes)
    requires |ss| == |es| + 1 && i <= |es| && Held(es[..i], k)
    requires forall j :: 0 <= j < |es| ==> KeptAt(st, ss, es, j)
    ensures k in ss[i].cache
  {
    var p := i - 1;
    assert KeptAt(st, ss, es, p);
    assert es[..i] == es[..p] + [es[p]];
    if Held(es[..p], k) {
      HeldIsCached(st, ss, es, p, k);
    }
    HeldStep(ss[p].cache, es[p], ss[i].cache, es[..p], k);
  }

  /** The caller's side, without a word on the cache: a staged key is asked for only while held by the calls. */
  ghost predicate Heeded<V>(st: Store<V>, ss: seq<State<V>>, es: seq<Event<V>>, i: nat)
    requires |ss| == |es| + 1 && i < |es|
  {
    var call := es[i].call;
    if call.Read? || call.Has? then Held(es[..i], call.key) || !Staged(ss[i].pending, st.prefix + call.key)
    else Disciplined(st, ss[i], call)
  }

  ghost predicate KeptRun<V>(st: Store<V>, ss: seq<State<V>>, es: seq<Event<V>>) {
    && |ss| == |es| + 1
    && (forall i :: 0 <= i < |es| ==> KeptAt(st, ss, es, i))
    && (forall i :: 0 <= i < |es| ==> Heeded(st, ss, es, i))
  }

  lemma KeptRunIsDisciplined<V(!new)>(st: Store<V>, ss: seq<State<V>>, es: seq<Event<V>>)
    requires KeptRun(st, ss, es)
    ensures Run(st, ss, es)
  {
    forall i | 0 <= i < |es|
      ensures Step(st, ss[i], es[i].call, ss[i + 1], es[i].reply) && Disciplined(st, ss[i], es[i].call)
    {
      assert KeptAt(st, ss, es, i) && Heeded(st, ss, es, i);
      var call := es[i].call;
      if (call.Read? || call.Has?) && Held(es[..i], call.key) {
        HeldIsCached(st, ss, es, i, call.key);
      }
    }
  }

  /** On every run that evicts nothing every reply is the plain map's; a staged key is read back with the value last written
      to it, before the commit and after. */
  lemma KeptRunAgrees<V(!new)>(st: Store<V>, ss: seq<State<V>>, es: seq<Event<V>>, m: map<Bytes, V>, i: nat)
    requires ValidStore(st) && KeptRun(st, ss, es) && i < |es|
    requires Agrees(st, ss[0], m) && Coherent(st, ss[0])
    ensures es[i].reply == PlainReply(PlainAfter(m, es[..i]), es[i].call)
    ensures es[i].call.Read? && Held(es[..i], es[i].call.key) ==> es[i].reply.Found?
  {
    KeptRunIsDisciplined(st, ss, es);
    RunAgrees(st, ss, es, m, i);
    assert KeptAt(st, ss, es, i);
    if es[i].call.Read? && Held(es[..i], es[i].call.key) {
      HeldIsCached(st, ss, es, i, es[i].call.key);
    }
  }

  // ---- when nothing is evicted ----

  /** The keys a call may put into the cache. */
  ghost function Mentioned<V>(call: Call<V>): set<Bytes> {
    match call
    case Read(k) => {k}
    case Write(_, k, _) => {k}
    case WriteMany(_, items) => set i | 0 <= i < |items| :: items[i].0
    case _ => {}
  }

  /** A bound that `n` entries never reach. */
  predicate Ample(policy: Policy, n: nat) {
    policy.maxSize > 0 && (if policy.tracked then n <= policy.minItems else n < policy.maxSize)
  }

  lemma RoomWhenAmple<V>(policy: Policy, size: V -> nat, m: map<Bytes, V>, items: seq<(Bytes, V)>, keys: set<Bytes>)
    requires Ample(policy, |keys|) && m.Keys <= keys && forall i :: 0 <= i < |items| ==> items[i].0 in keys
    ensures RoomForAll(policy, size, m, items) && InsertAll(m, items).Keys <= keys
  {
    forall i | 0 <= i < |items|
      ensures Room(policy, size, InsertAll(m, items[..i]), items[i].0, items[i].1)
    {
      KeysWithin(m, items[..i], keys);
      var all := InsertAll(m, items[..i]);
      SubsetCount(all.Keys, keys);
      SubsetCount(all[items[i].0 := items[i].1].Keys, keys);
    }
    KeysWithin(m, items, keys);
  }

  lemma KeysWithin<V>(m: map<Bytes, V>, items: seq<(Bytes, V)>, keys: set<Bytes>)
    requires m.Keys <= keys && forall i :: 0 <= i < |items| ==> items[i].0 in keys
    ensures InsertAll(m, items).Keys <= keys
  {
    forall k | k in InsertAll(m, items)
      ensures k in keys
    {
      InsertAllKeys(m, items, k);
    }
  }

  /** What the store's methods promise of one call. */
  ghost predicate CachedAt<V>(st: Store<V>, policy: Policy, size: V -> nat, ss: seq<State<V>>, es: seq<Event<V>>, i: nat)
    requires |ss| == |es| + 1 && i < |es|
  {
    && Step(st, ss[i], es[i].call, ss[i + 1], es[i].reply)
    && Caches(policy, size, ss[i].cache, es[i].call, es[i].reply, ss[i + 1].cache)
  }

  /** Where a call inserts nothing that is an equation. */
  lemma NothingInserted<V>(policy: Policy, size: V -> nat, cache: map<Bytes, V>, call: Call<V>, reply: Reply<V>)
    requires Inserted(cache, call, reply) == []
    ensures Caches(policy, size, cache, call, reply, Remaining(cache, call))
  {
  }

  lemma AmpleStep<V>(policy: Policy, size: V -> nat, cache: map<Bytes, V>, call: Call<V>, reply: Reply<V>, cache': map<Bytes, V>, keys: set<Bytes>)
    requires Ample(policy, |keys|) && cache.Keys <= keys && Mentioned(call) <= keys
    requires Caches(policy, size, cache, call, reply, cache')
    ensures Unevicted(cache, call, reply, cache') && cache'.Keys <= keys
  {
    var items := Inserted(cache, call, reply);
    forall i | 0 <= i < |items|
      ensures items[i].0 in keys
    {
      if call.WriteMany? {
        assert items[i].0 in Mentioned(call);
      }
    }
    RoomWhenAmple(policy, size, Remaining(cache, call), items, keys);
  }

  lemma AmpleAt<V>(st: Store<V>, policy: Policy, size: V -> nat, ss: seq<State<V>>, es: seq<Event<V>>, keys: set<Bytes>, i: nat)
    requires |ss| == |es| + 1 && i < |es| && CachedAt(st, policy, size, ss, es, i)
    requires Ample(policy, |keys|) && ss[i].cache.Keys <= keys && Mentioned(es[i].call) <= keys
    ensures KeptAt(st, ss, es, i) && ss[i + 1].cache.Keys <= keys
  {
    AmpleStep(policy, size, ss[i].cache, es[i].call, es[i].reply, ss[i + 1].cache, keys);
  }

  lemma {:induction false} AmpleRun<V>(st: Store<V>, policy: Policy, size: V -> nat, ss: seq<State<V>>, es: seq<Event<V>>, keys: set<Bytes>, i: nat)
    requires Ample(policy, |keys|) && |ss| == |es| + 1 && i <= |es| && ss[0].cache.Keys <= keys
    requires forall j :: 0 <= j < |es| ==> CachedAt(st, policy, size, ss, es, j)
    requires forall j :: 0 <= j < |es| ==> Mentioned(es[j].call) <= keys
    ensures ss[i].cache.Keys <= keys
  {
    if i > 0 {
      AmpleRun(st, policy, size, ss, es, keys, i - 1);
      AmpleAt(st, policy, size, ss, es, keys, i - 1);
    }
  }

  /** So it is whenever the policy has room for the keys that are written and read: more than that many entries in an
      untracked cache, that many protected ones in a tracked one. */
  lemma AmpleRunAgrees<V(!new)>(
    st: Store<V>, policy: Policy, size: V -> nat, ss: seq<State<V>>, es: seq<Event<V>>, keys: set<Bytes>, m: map<Bytes, V>, i: nat)
    requires ValidStore(st) && Ample(policy, |keys|) && |ss| == |es| + 1 && i < |es| && ss[0].cache.Keys <= keys
    requires forall j :: 0 <= j < |es| ==> CachedAt(st, policy, size, ss, es, j)
    requires forall j :: 0 <= j < |es| ==> Mentioned(es[j].call) <= keys
    requires forall j :: 0 <= j < |es| ==> Heeded(st, ss, es, j)
    requires Agrees(st, ss[0], m) && Coherent(st, ss[0])
    ensures es[i].reply == PlainReply(PlainAfter(m, es[..i]), es[i].call)
    ensures es[i].call.Read? && Held(es[..i], es[i].call.key) ==> es[i].reply.Found?
  {
    forall j | 0 <= j < |es|
      ensures KeptAt(st, ss, es, j)
    {
      AmpleRun(st, policy, size, ss, es, keys, j);
      AmpleAt(st, policy, size, ss, es, keys, j);
    }
    KeptRunAgrees(st, ss, es, m, i);
  }
}

/** The same for sets (`database/src/set_access.rs`): a bucket once read is cached, staged members are added to the cached
    set, and it answers with them before the commit. */
module SetReadYourWrites {
  import opened KeySpace
  import opened Writer
  import opened SetAccess
  import opened SharedSets
  import C = Cache
  import R = ReadYourWrites

  /** The call evicted nothing. */
  ghost predicate Unevicted<T>(sets: map<Bytes, set<T>>, call: SetCall<T>, reply: Option<set<T>>, sets': map<Bytes, set<T>>) {
    match call
    case Read(k) => sets' == if k !in sets && reply.Some? then sets[k := reply.value] else sets
    case Write(_, k, t) => sets' == AddTo(sets, k, t)
    case Delete(_, k, t) => sets' == RemoveFrom(sets, k, t)
    case DeleteBucket(_, k) => sets' == sets - {k}
    case Other(_, _) => sets' == sets
    case Commit => sets' == sets
  }

  /** Bucket `k` was read in the first `n` calls, and not deleted since. */
  predicate Held<T>(calls: seq<SetCall<T>>, replies: seq<Option<set<T>>>, n: nat, k: Bytes)
    requires |replies| == |calls| && n <= |calls|
  {
    if n == 0 then false
    else
      var before := Held(calls, replies, n - 1, k);
      match calls[n - 1]
      case Read(j) => (j == k && replies[n - 1].Some?) || before
      case DeleteBucket(_, j) => j != k && before
      case _ => before
  }

  /** What the methods promise of one call, and what they ask of it with nothing said of the cache. */
  ghost predicate CachedAt<T(!new)>(st: SetStore<T>, policy: C.Policy, vs: seq<View<T>>, calls: seq<SetCall<T>>, replies: seq<Option<set<T>>>, i: nat)
    requires |vs| == |calls| + 1 && |replies| == |calls| && i < |calls|
  {
    && SetStep(st, vs[i], calls[i], vs[i + 1], replies[i])
    && SetCaches(policy, vs[i].sets, calls[i], replies[i], vs[i + 1].sets)
  }

  ghost predicate Heeded<T(!new)>(st: SetStore<T>, vs: seq<View<T>>, calls: seq<SetCall<T>>, replies: seq<Option<set<T>>>, i: nat)
    requires |vs| == |calls| + 1 && |replies| == |calls| && i < |calls|
  {
    match calls[i]
    case Read(k) => |k| == st.width && (Held(calls, replies, i, k) || Unstaged(st, vs[i].pending, k))
    case _ => SetDisciplined(st, vs[i], calls[i])
  }

  ghost predicate AmpleRun<T(!new)>(
    st: SetStore<T>, policy: C.Policy, vs: seq<View<T>>, calls: seq<SetCall<T>>, replies: seq<Option<set<T>>>, keys: set<Bytes>) {
    && |vs| == |calls| + 1 && |replies| == |calls| && R.Ample(policy, |keys|) && vs[0].sets.Keys <= keys
    && (forall i :: 0 <= i < |calls| ==> CachedAt(st, policy, vs, calls, replies, i))
    && (forall i :: 0 <= i < |calls| && calls[i].Read? ==> calls[i].key in keys)
  }

  lemma AmpleStep<T>(policy: C.Policy, sets: map<Bytes, set<T>>, call: SetCall<T>, reply: Option<set<T>>, sets': map<Bytes, set<T>>, keys: set<Bytes>)
    requires R.Ample(policy, |keys|) && sets.Keys <= keys && (call.Read? ==> call.key in keys)
    requires SetCaches(policy, sets, call, reply, sets')
    ensures Unevicted(sets, call, reply, sets') && sets'.Keys <= keys
  {
    match call
    case Read(k) =>
      if k !in sets && reply.Some? {
        SubsetCount(sets.Keys, keys);
        SubsetCount(sets[k := reply.value].Keys, keys);
      }
    case Write(_, k, t) => SubsetCount(AddTo(sets, k, t).Keys, keys);
    case _ =>
  }

  /** A bucket held by the calls is cached. */
  lemma {:induction false} HeldIsCached<T(!new)>(
    st: SetStore<T>, policy: C.Policy, vs: seq<View<T>>, calls: seq<SetCall<T>>, replies: seq<Option<set<T>>>, keys: set<Bytes>, i: nat, k: Bytes)
    requires AmpleRun(st, policy, vs, calls, replies, keys) && i <= |calls|
    ensures vs[i].sets.Keys <= keys && (Held(calls, replies, i, k) ==> k in vs[i].sets)
  {
    if i > 0 {
      HeldIsCached(st, policy, vs, calls, replies, keys, i - 1, k);
      assert CachedAt(st, policy, vs, calls, replies, i - 1);
      AmpleStep(policy, vs[i - 1].sets, calls[i - 1], replies[i - 1], vs[i].sets, keys);
    }
  }

  /** With room for the buckets that are read, every read returns the plain map's set, staged members included, on every run
      that asks for a bucket with staged members only if it was read before and not deleted since. */
  lemma AmpleRunAgrees<T(!new)>(
    st: SetStore<T>, policy: C.Policy, vs: seq<View<T>>, calls: seq<SetCall<T>>, replies: seq<Option<set<T>>>, keys: set<Bytes>,
    m: map<Bytes, set<T>>, i: nat)
    requires st.Valid() && RoundTrips(st.codec) && AmpleRun(st, policy, vs, calls, replies, keys)
    requires forall j :: 0 <= j < |calls| ==> Heeded(st, vs, calls, replies, j)
    requires Coherent(st, vs[0]) && SetAgrees(st, vs[0], m) && i < |calls| && calls[i].Read?
    ensures replies[i] == Some(At(PlainSetsAfter(m, calls[..i]), calls[i].key))
  {
    forall j | 0 <= j < |calls|
      ensures SetFollows(st, vs, calls, replies, j)
    {
      assert CachedAt(st, policy, vs, calls, replies, j) && Heeded(st, vs, calls, replies, j);
      if calls[j].Read? {
        HeldIsCached(st, policy, vs, calls, replies, keys, j, calls[j].key);
      }
    }
    SetRunAgrees(st, vs, calls, replies, m, i);
  }
}
